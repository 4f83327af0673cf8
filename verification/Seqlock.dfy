/** One index of the peer table with its lock-free readers, as a state machine.
    The writer stores bucket by bucket while the version is odd; any number of
    readers probe at the same time and accept a result only when the version has
    not moved. Steps interleave freely. */
module Seqlock {
  import opened Options
  import opened RobinHood

  /** An address or an id: fixed-width bytes, read as a number. */
  type Key = nat

  type Entry = Bucket<Key>

  /** A slot's way through the pool: leased by Register, drained after Remove. */
  datatype Stage = Free | Fresh | Live | Draining | DrainLocked | Drained

  /** What one writer call does to this index. Other stands for calls that bump the
      version but leave this index and its keys alone. */
  datatype Op =
    | Register(slot: nat, key: Option<Key>)
    | Bind(slot: nat, key: Option<Key>)
    | Move(slot: nat, from: Key, key: Option<Key>)
    | Remove(slot: nat, key: Option<Key>)
    | Other

  /** Locked: the slot's write lock is held and its record not yet written.
      Open: the version is odd. Closed: it is even again. */
  datatype Phase = Ready | Locked | Written | Open | Closed

  datatype Writer = Idle | Busy(op: Op, phase: Phase)

  datatype Place =
    | Probe(dist: nat)
    | SawHash(dist: nat)
    | Chosen(dist: nat, slot: nat)
    | Pinned(dist: nat, slot: nat)
    | Verified(dist: nat, slot: nat)
    | Ended

  /** snap remembers the buckets as they were when the version was first read. */
  datatype Reader =
    | Resting
    | Looking(key: Key, start: nat, snap: seq<Entry>, place: Place)
    | Holding(key: Key, slot: nat)
    | Missed(key: Key)

  /** records holds each slot's key, None while the peer has no id. mapped is what
      the buckets stood for when the version was last even. slow is the reader
      that holds the writer lock, if one does. */
  datatype Sys = Sys(
    hash: Key -> nat,
    version: nat,
    buckets: seq<Entry>,
    records: seq<Option<Key>>,
    stage: seq<Stage>,
    mapped: map<Key, nat>,
    writer: Writer,
    slow: Option<nat>,
    readers: seq<Reader>)

  // --- The index at rest ---

  predicate Holds(b: seq<Entry>, p: nat, k: Key) {
    p < |b| && Full(b[p]) && b[p].key == k
  }

  ghost predicate Indexes(b: seq<Entry>, hash: Key -> nat, m: map<Key, nat>) {
    && Ordered(b)
    && (forall p: nat :: p < |b| && Full(b[p]) ==>
          b[p].hash == hash(b[p].key) && b[p].key in m && m[b[p].key] == b[p].idx)
    && (forall k :: k in m ==> exists p: nat :: Holds(b, p, k))
  }

  // --- Locks ---

  predicate Pins(rd: Reader, slot: nat) {
    || (rd.Looking? && (rd.place.Pinned? || rd.place.Verified?) && rd.place.slot == slot)
    || (rd.Holding? && rd.slot == slot)
  }

  predicate WritesRecord(op: Op) {
    op.Register? || op.Bind? || op.Move?
  }

  /** Bind keeps the slot's write lock across the insert; the others drop it with
      the record written. */
  predicate WriterHolds(w: Writer, slot: nat) {
    && w.Busy? && WritesRecord(w.op) && w.op.slot == slot
    && (w.phase == Locked || (w.op.Bind? && w.phase in {Written, Open, Closed}))
  }

  predicate WriteLocked(s: Sys, slot: nat) {
    slot < |s.stage| && (s.stage[slot] == DrainLocked || WriterHolds(s.writer, slot))
  }

  ghost predicate NoPins(s: Sys, slot: nat) {
    forall r :: 0 <= r < |s.readers| ==> !Pins(s.readers[r], slot)
  }

  // --- The writer ---

  ghost predicate Allowed(s: Sys, op: Op) {
    match op
    case Register(slot, key) =>
      slot < |s.stage| && s.stage[slot] == Free && (key.Some? ==> key.value !in s.mapped)
    case Bind(slot, key) =>
      && slot < |s.stage| == |s.records| && s.stage[slot] == Live && s.records[slot] == None
      && key.Some? && key.value !in s.mapped
    case Move(slot, from, key) =>
      from in s.mapped && s.mapped[from] == slot && key.Some? && key.value !in s.mapped
    case Remove(slot, key) =>
      slot < |s.stage| == |s.records| && s.stage[slot] == Live && s.records[slot] == key
    case Other => true
  }

  function Target(op: Op, m: map<Key, nat>): (r: map<Key, nat>) {
    match op
    case Register(slot, key) => if key.Some? then m[key.value := slot] else m
    case Bind(slot, key) => if key.Some? then m[key.value := slot] else m
    case Move(slot, from, key) => if key.Some? then (m - {from})[key.value := slot] else m
    case Remove(slot, key) => if key.Some? then m - {key.value} else m
    case Other => m
  }

  function Restaged(stage: seq<Stage>, op: Op): (r: seq<Stage>) {
    if op.Register? && op.slot < |stage| then stage[op.slot := Live]
    else if op.Remove? && op.slot < |stage| then stage[op.slot := Draining]
    else stage
  }

  // --- The reader ---

  function Pos(s: Sys, key: Key, dist: nat): (p: nat)
    requires |s.buckets| > 0
    ensures p < |s.buckets|
  {
    At(Home(s.hash(key), |s.buckets|), dist, |s.buckets|)
  }

  function AfterHash(s: Sys, key: Key, dist: nat): (r: Place)
    requires |s.buckets| > 0
  {
    if dist >= |s.buckets| then Ended
    else
      var e := s.buckets[Pos(s, key, dist)];
      if e.hash == 0 then Ended
      else if e.hash == s.hash(key) then SawHash(dist)
      else if Dist(e.hash, Pos(s, key, dist), |s.buckets|) < dist then Ended
      else Probe(dist + 1)
  }

  function AfterIdx(s: Sys, key: Key, dist: nat): (r: Place)
    requires |s.buckets| > 0
  {
    Chosen(dist, s.buckets[Pos(s, key, dist)].idx)
  }

  function AfterVerify(matches: bool, place: Place): (r: Place)
    requires place.Pinned?
  {
    if matches then Verified(place.dist, place.slot) else Probe(place.dist + 1)
  }

  /** What the lookup returns; Resting means it tries again. */
  function Outcome(rd: Reader, stands: bool): (r: Reader)
    requires rd.Looking? && (rd.place.Verified? || rd.place.Ended?)
  {
    if !stands then Resting
    else if rd.place.Ended? then Missed(rd.key)
    else Holding(rd.key, rd.place.slot)
  }

  /** The result stands: under the writer lock always, otherwise when the version
      is what it was. */
  predicate Stands(s: Sys, r: nat)
    requires r < |s.readers| && s.readers[r].Looking?
  {
    s.slow == Some(r) || s.version == s.readers[r].start
  }

  predicate InLookup(s: Sys, r: nat) {
    r < |s.readers| && s.readers[r].Looking?
  }

  function Moved(s: Sys, r: nat, place: Place): (res: Sys)
    requires InLookup(s, r)
  {
    s.(readers := s.readers[r := s.readers[r].(place := place)])
  }

  /** Leaves the lookup, giving up the writer lock if it was held. */
  function Left(s: Sys, r: nat, rd: Reader): (res: Sys)
    requires r < |s.readers|
  {
    s.(readers := s.readers[r := rd], slow := if s.slow == Some(r) then None else s.slow)
  }

  function Entered(s: Sys, r: nat, key: Key): (res: Sys)
    requires r < |s.readers|
  {
    s.(readers := s.readers[r := Looking(key, s.version, s.buckets, Probe(0))])
  }

  datatype Step =
    | Begin(op: Op)
    | LockSlot
    | WriteRecord
    | OpenIndex
    | Store(pos: nat, entry: Entry)
    | CloseIndex
    | Finish
    | LockDrain(slot: nat)
    | UnlockDrain(slot: nat)
    | Release(slot: nat)
    | Look(reader: nat, key: Key)
    | LookSlow(reader: nat, key: Key)
    | LoadHash(reader: nat)
    | LoadIdx(reader: nat)
    | Pin(reader: nat)
    | Verify(reader: nat)
    | Recheck(reader: nat)
    | Drop(reader: nat)

  ghost predicate WriterNext(s: Sys, step: Step, t: Sys) {
    match step
    case Begin(op) =>
      && s.writer.Idle? && s.slow.None? && Allowed(s, op)
      && t == s.(writer := Busy(op, if WritesRecord(op) then Ready else Written),
                 stage := if op.Register? then s.stage[op.slot := Fresh] else s.stage)
    case LockSlot =>
      && s.writer.Busy? && s.writer.phase == Ready && WritesRecord(s.writer.op)
      && !WriteLocked(s, s.writer.op.slot) && NoPins(s, s.writer.op.slot)
      && t == s.(writer := s.writer.(phase := Locked))
    case WriteRecord =>
      && s.writer.Busy? && s.writer.phase == Locked && WritesRecord(s.writer.op)
      && s.writer.op.slot < |s.records|
      && t == s.(writer := s.writer.(phase := Written),
                 records := s.records[s.writer.op.slot := s.writer.op.key])
    case OpenIndex =>
      && s.writer.Busy? && s.writer.phase == Written
      && t == s.(writer := s.writer.(phase := Open), version := s.version + 1)
    case Store(pos, entry) =>
      && s.writer.Busy? && s.writer.phase == Open
      && pos < |s.buckets| && entry.idx < |s.records|
      && t == s.(buckets := s.buckets[pos := entry])
    case CloseIndex =>
      && s.writer.Busy? && s.writer.phase == Open
      && Indexes(s.buckets, s.hash, Target(s.writer.op, s.mapped))
      && t == s.(writer := s.writer.(phase := Closed), version := s.version + 1,
                 mapped := Target(s.writer.op, s.mapped), stage := Restaged(s.stage, s.writer.op))
    case Finish =>
      && s.writer.Busy? && s.writer.phase == Closed
      && t == s.(writer := Idle)
    case _ => false
  }

  ghost predicate DrainNext(s: Sys, step: Step, t: Sys) {
    match step
    case LockDrain(slot) =>
      && slot < |s.stage| && s.stage[slot] == Draining && NoPins(s, slot) && !WriteLocked(s, slot)
      && t == s.(stage := s.stage[slot := DrainLocked])
    case UnlockDrain(slot) =>
      slot < |s.stage| && s.stage[slot] == DrainLocked && t == s.(stage := s.stage[slot := Drained])
    case Release(slot) =>
      slot < |s.stage| && s.stage[slot] == Drained && t == s.(stage := s.stage[slot := Free])
    case _ => false
  }

  ghost predicate ReaderNext(s: Sys, step: Step, t: Sys) {
    match step
    case Look(r, key) =>
      && r < |s.readers| && (s.readers[r].Resting? || s.readers[r].Missed?)
      && s.version % 2 == 0 && t == Entered(s, r, key)
    case LookSlow(r, key) =>
      && r < |s.readers| && (s.readers[r].Resting? || s.readers[r].Missed?)
      && s.writer.Idle? && s.slow.None? && t == Entered(s, r, key).(slow := Some(r))
    case LoadHash(r) =>
      && InLookup(s, r) && s.readers[r].place.Probe? && |s.buckets| > 0
      && t == Moved(s, r, AfterHash(s, s.readers[r].key, s.readers[r].place.dist))
    case LoadIdx(r) =>
      && InLookup(s, r) && s.readers[r].place.SawHash? && |s.buckets| > 0
      && t == Moved(s, r, AfterIdx(s, s.readers[r].key, s.readers[r].place.dist))
    case Pin(r) =>
      && InLookup(s, r) && s.readers[r].place.Chosen? && !WriteLocked(s, s.readers[r].place.slot)
      && t == Moved(s, r, Pinned(s.readers[r].place.dist, s.readers[r].place.slot))
    case Verify(r) =>
      && InLookup(s, r) && s.readers[r].place.Pinned? && s.readers[r].place.slot < |s.records|
      && t == Moved(s, r, AfterVerify(s.records[s.readers[r].place.slot] == Some(s.readers[r].key), s.readers[r].place))
    case Recheck(r) =>
      && InLookup(s, r) && (s.readers[r].place.Verified? || s.readers[r].place.Ended?)
      && t == Left(s, r, Outcome(s.readers[r], Stands(s, r)))
    case Drop(r) =>
      r < |s.readers| && s.readers[r].Holding? && t == s.(readers := s.readers[r := Resting])
    case _ => false
  }

  ghost predicate Next(s: Sys, step: Step, t: Sys) {
    WriterNext(s, step, t) || DrainNext(s, step, t) || ReaderNext(s, step, t)
  }

  ghost predicate CanStep(s: Sys, t: Sys) {
    exists step :: Next(s, step, t)
  }

  ghost predicate Init(s: Sys) {
    && (forall k :: s.hash(k) != 0)
    && s.version == 0 && |s.buckets| > 1 && |s.records| > 0
    && (forall p :: 0 <= p < |s.buckets| ==> s.buckets[p].hash == 0 && s.buckets[p].idx < |s.records|)
    && |s.stage| == |s.records| && (forall i :: 0 <= i < |s.stage| ==> s.stage[i] == Free)
    && s.mapped == map[] && s.writer == Idle && s.slow == None
    && (forall r :: 0 <= r < |s.readers| ==> s.readers[r] == Resting)
  }

  ghost predicate IsRun(run: seq<Sys>) {
    && |run| > 0 && Init(run[0])
    && forall i: nat :: i + 1 < |run| ==> CanStep(run[i], run[i + 1])
  }
}
