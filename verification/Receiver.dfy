/** The receiving half of an association, on values: the sliding seen bitmap,
    the reorder hold-back ring and the delivery cursor. The class in
    InAssociation.dfy updates the same state in place and is proved equal to
    these functions. */
module Receiver {
  import opened Options
  import opened FlowTypes

  /** packet == None marks the slot free. */
  datatype HoldbackEntry = HoldbackEntry(num: nat, packet: Option<Body>)

  const FREE_HOLD := HoldbackEntry(0, None)
  const UINT32_MAX: nat := 0xFFFF_FFFF

  datatype InState = InState(
    mode: FlowMode,
    recvNext: nat,
    recvHighest: nat,
    seen: seq<bool>,
    hold: seq<HoldbackEntry>,
    heldCount: nat,
    newSinceFlush: nat,
    ackImmediate: bool)

  datatype Delivery = Delivery(st: InState, out: seq<Body>)

  predicate Shape(s: InState) {
    && |s.seen| == WindowFor(s.mode)
    && |s.hold| == ReorderCapFor(s.mode)
    && s.recvNext >= 1
  }

  function Fresh(mode: FlowMode): (r: InState) {
    InState(mode, 1, 0, seq(WindowFor(mode), i => false),
            seq(ReorderCapFor(mode), i => FREE_HOLD), 0, 0, false)
  }

  // --- The seen bitmap ---

  predicate BitOf(seen: seq<bool>, n: int)
    requires |seen| > 0
  {
    seen[n % |seen|]
  }

  /** n was committed and its bit is still inside the window. */
  predicate SeenAt(seen: seq<bool>, hi: int, n: int)
    requires |seen| > 0
  {
    1 <= n && hi - |seen| < n <= hi && BitOf(seen, n)
  }

  /** Slots whose sequence would be zero or less were never committed. */
  ghost predicate NoGhostBits(seen: seq<bool>, hi: int)
    requires |seen| > 0
  {
    forall n :: hi - |seen| < n <= 0 ==> !BitOf(seen, n)
  }

  function Floor(hi: nat, bits: nat): (r: nat) {
    if hi >= bits then hi - bits + 1 else 1
  }

  predicate AlreadySeen(seen: seq<bool>, hi: nat, n: nat)
    requires |seen| > 0
  {
    if n > hi then false
    else if n < Floor(hi, |seen|) then true
    else BitOf(seen, n)
  }

  function Max(a: int, b: int): (r: int) {
    if a > b then a else b
  }

  /** The bitmap after committing n: slot by slot, the sequence the slot stands
      for in the moved window is n itself, or was already committed. */
  function CommitBits(seen: seq<bool>, hi: nat, n: nat): (r: seq<bool>)
    requires |seen| > 0
    ensures |r| == |seen|
  {
    var top := Max(hi, n);
    seq(|seen|, i requires 0 <= i < |seen| =>
          var m := SeqAt(i, top, |seen|);
          m == n || (m <= hi && seen[i]))
  }

  function Commit(s: InState, n: nat): (r: InState)
    requires Shape(s)
    ensures Shape(r)
  {
    s.(seen := CommitBits(s.seen, s.recvHighest, n), recvHighest := Max(s.recvHighest, n))
  }

  /** Committing n adds n to the window's set and forgets exactly what slid out,
      however far the window jumps. */
  lemma {:induction false} CommitBitsLaw(seen: seq<bool>, hi: nat, n: nat)
    requires |seen| > 0
    requires hi - |seen| < n
    ensures forall m: int :: Max(hi, n) - |seen| < m <= Max(hi, n) ==>
      (BitOf(CommitBits(seen, hi, n), m) <==> m == n || (m <= hi && BitOf(seen, m)))
  {
    forall m: int | Max(hi, n) - |seen| < m <= Max(hi, n)
      ensures BitOf(CommitBits(seen, hi, n), m) <==> m == n || (m <= hi && BitOf(seen, m))
    {
      SeqAtUnique(m, Max(hi, n), |seen|);
    }
  }

  // --- Delivery ---

  function ArmAck(s: InState): (r: InState) {
    s.(newSinceFlush := if s.newSinceFlush < UINT32_MAX then s.newSinceFlush + 1 else s.newSinceFlush)
  }

  function Urgent(s: InState): (r: InState) {
    ArmAck(s.(ackImmediate := true))
  }

  function DeliverUnordered(s: InState, n: nat, body: Body, room: bool): (r: Delivery)
    requires Shape(s)
  {
    if AlreadySeen(s.seen, s.recvHighest, n) then Delivery(ArmAck(s), [])
    else if s.mode == Unreliable && n <= s.recvHighest then Delivery(ArmAck(Commit(s, n)), [])
    else if !room then Delivery(ArmAck(s), [])
    else Delivery(ArmAck(Commit(s, n)), [body])
  }

  function HeldSlots(hold: seq<HoldbackEntry>): (r: set<int>) {
    set i | 0 <= i < |hold| && hold[i].packet.Some?
  }

  /** Moves the contiguous run at the cursor out of the hold-back ring. */
  function DrainRun(s: InState): (d: Delivery)
    requires Shape(s)
    ensures Shape(d.st)
    decreases HeldSlots(s.hold)
  {
    if |s.hold| == 0 then Delivery(s, [])
    else
      var i := s.recvNext % |s.hold|;
      var held := s.hold[i];
      if held.packet.None? || held.num != s.recvNext then Delivery(s, [])
      else
        var next := s.(hold := s.hold[i := FREE_HOLD],
                       heldCount := if s.heldCount > 0 then s.heldCount - 1 else 0,
                       recvNext := s.recvNext + 1);
        assert i in HeldSlots(s.hold) && i !in HeldSlots(next.hold);
        var rest := DrainRun(next);
        Delivery(rest.st, [held.packet.value] + rest.out)
  }

  function DeliverOrdered(s: InState, n: nat, body: Body, room: bool): (r: Delivery)
    requires Shape(s)
  {
    if n < s.recvNext then Delivery(Urgent(s), [])
    else if n == s.recvNext then
      if s.heldCount == 0 && !room then Delivery(ArmAck(s), [])
      else
        var run := DrainRun(ArmAck(Commit(s, n)).(recvNext := n + 1));
        Delivery(run.st, [body] + run.out)
    else if |s.hold| > 0 && room && n < s.recvNext + |s.hold| then
      var i := n % |s.hold|;
      if s.hold[i].packet.None? then
        Delivery(Urgent(Commit(s.(hold := s.hold[i := HoldbackEntry(n, Some(body))],
                                  heldCount := s.heldCount + 1), n)), [])
      else Delivery(s, [])
    else Delivery(Urgent(s), [])
  }

  function Deliver(s: InState, n: nat, body: Body, room: bool): (r: Delivery)
    requires Shape(s)
  {
    if IsOrdered(s.mode) then DeliverOrdered(s, n, body, room) else DeliverUnordered(s, n, body, room)
  }

  /** The jam reclaim: every held packet goes, and its seen bit with it. */
  function DropHoldback(s: InState): (r: InState)
    requires Shape(s)
  {
    s.(hold := seq(|s.hold|, i requires 0 <= i < |s.hold| =>
                     if s.hold[i].packet.Some? then FREE_HOLD else s.hold[i]),
       heldCount := if |s.hold| == 0 then s.heldCount else 0,
       seen := seq(|s.seen|, k requires 0 <= k < |s.seen| =>
                     s.seen[k] && !HeldBit(s.hold, k, |s.seen|)))
  }

  predicate HeldBit(hold: seq<HoldbackEntry>, k: int, bits: nat)
    requires bits > 0
  {
    exists i :: 0 <= i < |hold| && hold[i].packet.Some? && hold[i].num % bits == k
  }

  // --- Acknowledgement ranges ---

  /** ranges lists the maximal runs of committed sequences, newest first; when
      the list is full it holds the newest ones. */
  ghost predicate IsAckRanges(seen: seq<bool>, hi: nat, ranges: seq<AckRange>, maxRanges: nat)
    requires |seen| > 0
  {
    && |ranges| <= maxRanges
    && (forall i :: 0 <= i < |ranges| ==> IsMaximalRun(seen, hi, ranges[i]))
    && (forall i, j :: 0 <= i < j < |ranges| ==> ranges[j].last + 1 < ranges[i].first)
    && (forall n :: SeenAt(seen, hi, n) && !SeqInRanges(n, ranges) ==>
          |ranges| == maxRanges && forall i :: 0 <= i < |ranges| ==> n < ranges[i].first)
  }

  ghost predicate IsMaximalRun(seen: seq<bool>, hi: nat, r: AckRange)
    requires |seen| > 0
  {
    && r.first <= r.last
    && (forall n :: r.first <= n <= r.last ==> SeenAt(seen, hi, n))
    && !SeenAt(seen, hi, r.first - 1)
    && !SeenAt(seen, hi, r.last + 1)
  }

  /** The list holds every maximal run of the window. */
  ghost predicate AllRuns(seen: seq<bool>, hi: nat, all: seq<AckRange>)
    requires |seen| > 0
  {
    && (forall i :: 0 <= i < |all| ==> IsMaximalRun(seen, hi, all[i]))
    && forall n: nat :: SeenAt(seen, hi, n) ==> SeqInRanges(n, all)
  }

  /** The window has no more maximal runs than this. */
  ghost predicate FewRuns(seen: seq<bool>, hi: nat, most: nat)
    requires |seen| > 0
  {
    exists all: seq<AckRange> :: |all| <= most && AllRuns(seen, hi, all)
  }

  lemma {:induction false} RunReaches(seen: seq<bool>, hi: nat, a: AckRange, b: AckRange, x: nat)
    requires |seen| > 0 && IsMaximalRun(seen, hi, a) && IsMaximalRun(seen, hi, b)
    requires a.first <= x <= a.last && b.first <= x <= b.last
    ensures a.first <= b.first && b.last <= a.last
  {
    assert !SeenAt(seen, hi, a.first - 1) && !SeenAt(seen, hi, a.last + 1);
  }

  lemma {:induction false} RunListed(seen: seq<bool>, hi: nat, r: AckRange, all: seq<AckRange>)
    requires |seen| > 0 && IsMaximalRun(seen, hi, r) && AllRuns(seen, hi, all)
    ensures r in all
  {
    assert SeenAt(seen, hi, r.first) && SeqInRanges(r.first, all);
    var i :| 0 <= i < |all| && all[i].first <= r.first <= all[i].last;
    RunReaches(seen, hi, r, all[i], r.first);
    RunReaches(seen, hi, all[i], r, r.first);
  }

  lemma {:induction false} DistinctFit<T>(few: seq<T>, all: seq<T>)
    requires forall i, j :: 0 <= i < j < |few| ==> few[i] != few[j]
    requires forall x :: x in few ==> x in all
    ensures |few| <= |all|
  {
    if few != [] {
      var x := few[|few| - 1];
      assert x in few;
      var i :| 0 <= i < |all| && all[i] == x;
      var rest := all[..i] + all[i + 1..];
      var fewer := few[..|few| - 1];
      forall y | y in fewer
        ensures y in rest
      {
        var k :| 0 <= k < |fewer| && fewer[k] == y;
        assert few[k] == y != x && y in few;
        var m :| 0 <= m < |all| && all[m] == y;
        assert rest[if m < i then m else m - 1] == y;
      }
      DistinctFit(fewer, rest);
    }
  }

  lemma {:induction false} OneMoreRun(seen: seq<bool>, hi: nat, ranges: seq<AckRange>, most: nat, all: seq<AckRange>, n: nat)
    requires |seen| > 0 && IsAckRanges(seen, hi, ranges, most) && AllRuns(seen, hi, all)
    requires SeenAt(seen, hi, n) && !SeqInRanges(n, ranges)
    ensures |all| > most
  {
    assert SeqInRanges(n, all);
    var i :| 0 <= i < |all| && all[i].first <= n <= all[i].last;
    var more := ranges + [all[i]];
    forall r | r in more
      ensures r in all
    {
      if r in ranges {
        RunListed(seen, hi, r, all);
      }
    }
    DistinctFit(more, all);
  }

  /** With few enough runs an acknowledgement names everything the window has seen. */
  lemma {:induction false} FewRunsNamed(seen: seq<bool>, hi: nat, ranges: seq<AckRange>, most: nat, n: nat)
    requires |seen| > 0 && IsAckRanges(seen, hi, ranges, most) && FewRuns(seen, hi, most)
    requires SeenAt(seen, hi, n)
    ensures SeqInRanges(n, ranges)
  {
    var all: seq<AckRange> :| |all| <= most && AllRuns(seen, hi, all);
    if !SeqInRanges(n, ranges) {
      OneMoreRun(seen, hi, ranges, most, all, n);
    }
  }

  // --- What every arrival keeps on an ordered flow ---

  predicate Held(s: InState, n: int) {
    |s.hold| > 0 && s.hold[n % |s.hold|].packet.Some? && s.hold[n % |s.hold|].num == n
  }

  function CountHeldTo(hold: seq<HoldbackEntry>, n: nat): (r: nat)
    requires n <= |hold|
  {
    if n == 0 then 0 else CountHeldTo(hold, n - 1) + if hold[n - 1].packet.Some? then 1 else 0
  }

  function CountHeld(hold: seq<HoldbackEntry>): (r: nat) {
    CountHeldTo(hold, |hold|)
  }

  /** Every held packet is ahead of the cursor by less than the ring, in the slot
      its sequence names, and no later than the newest commit. lo is the lowest
      sequence the ring may hold: past the cursor when no delivery is in
      progress, the cursor itself while a run drains. */
  ghost predicate HoldInPlace(s: InState, lo: nat) {
    forall i :: 0 <= i < |s.hold| && s.hold[i].packet.Some? ==>
      && lo <= s.hold[i].num < s.recvNext + |s.hold|
      && s.hold[i].num % |s.hold| == i
      && s.hold[i].num <= s.recvHighest
  }

  /** Inside the window a bit is set exactly for what was delivered or is held. */
  ghost predicate BitsMatch(s: InState)
    requires |s.seen| > 0
  {
    forall n :: s.recvHighest - |s.seen| < n <= s.recvHighest ==>
      (BitOf(s.seen, n) <==> 1 <= n && (n < s.recvNext || Held(s, n)))
  }

  ghost predicate OrderedFrom(s: InState, lo: nat) {
    && Shape(s) && IsOrdered(s.mode)
    && s.recvNext - 1 <= s.recvHighest < s.recvNext + |s.hold|
    && HoldInPlace(s, lo)
    && BitsMatch(s)
    && s.heldCount == CountHeld(s.hold)
  }

  ghost predicate OrderedInv(s: InState) {
    OrderedFrom(s, s.recvNext + 1)
  }

  lemma {:induction false} CountHeldUpdateTo(hold: seq<HoldbackEntry>, i: int, e: HoldbackEntry, n: nat)
    requires 0 <= i < |hold| && n <= |hold|
    ensures CountHeldTo(hold[i := e], n) == CountHeldTo(hold, n)
      + if i < n then (if e.packet.Some? then 1 else 0) - (if hold[i].packet.Some? then 1 else 0) else 0
  {
    if n > 0 {
      CountHeldUpdateTo(hold, i, e, n - 1);
    }
  }

  lemma {:induction false} CountHeldUpdate(hold: seq<HoldbackEntry>, i: int, e: HoldbackEntry)
    requires 0 <= i < |hold|
    ensures CountHeld(hold[i := e]) == CountHeld(hold)
      - (if hold[i].packet.Some? then 1 else 0) + (if e.packet.Some? then 1 else 0)
  {
    CountHeldUpdateTo(hold, i, e, |hold|);
  }

  lemma {:induction false} CountHeldEmpty(hold: seq<HoldbackEntry>, n: nat)
    requires n <= |hold|
    requires forall i :: 0 <= i < |hold| ==> hold[i].packet.None?
    ensures CountHeldTo(hold, n) == 0
  {
    if n > 0 {
      CountHeldEmpty(hold, n - 1);
    }
  }

  lemma {:induction false} FreshOrdered(mode: FlowMode)
    requires IsOrdered(mode)
    ensures OrderedInv(Fresh(mode))
  {
    CountHeldEmpty(Fresh(mode).hold, |Fresh(mode).hold|);
  }

  lemma {:induction false} HeldWithin(s: InState, lo: nat, n: int)
    requires |s.hold| > 0 && HoldInPlace(s, lo)
    ensures Held(s, n) ==> lo <= n < s.recvNext + |s.hold| && n <= s.recvHighest
  {
    var e := s.hold[n % |s.hold|];
    assert e.packet.Some? ==> e.num <= s.recvHighest;
  }

  /** Committing n at or past the cursor, with n the packet being taken in. */
  lemma {:induction false} CommitOrdered(s: InState, n: nat, m: int)
    requires OrderedInv(s)
    requires s.recvNext <= n < s.recvNext + |s.hold|
    requires Max(s.recvHighest, n) - |s.seen| < m <= Max(s.recvHighest, n)
    ensures BitOf(Commit(s, n).seen, m) <==> 1 <= m && (m == n || m < s.recvNext || Held(s, m))
  {
    CommitBitsLaw(s.seen, s.recvHighest, n);
    if m <= s.recvHighest {
      assert BitOf(s.seen, m) <==> 1 <= m && (m < s.recvNext || Held(s, m));
    } else {
      HeldWithin(s, s.recvNext + 1, m);
    }
  }

  /** Held packets come from the stream: packet n carries the n-th body. */
  ghost predicate HoldsFrom(s: InState, stream: seq<Body>) {
    forall i :: 0 <= i < |s.hold| && s.hold[i].packet.Some? ==>
      1 <= s.hold[i].num <= |stream| && s.hold[i].packet.value == stream[s.hold[i].num - 1]
  }

  /** One step of the drain keeps the invariant with the cursor one further. */
  lemma {:induction false} DrainStep(s: InState, t: InState)
    requires OrderedFrom(s, s.recvNext)
    requires Held(s, s.recvNext)
    requires t == s.(hold := s.hold[s.recvNext % |s.hold| := FREE_HOLD],
                     heldCount := if s.heldCount > 0 then s.heldCount - 1 else 0,
                     recvNext := s.recvNext + 1)
    ensures OrderedFrom(t, t.recvNext)
  {
    var i := s.recvNext % |s.hold|;
    CountHeldUpdate(s.hold, i, FREE_HOLD);
    forall k | 0 <= k < |t.hold| && t.hold[k].packet.Some?
      ensures t.recvNext <= t.hold[k].num
    {
      assert k != i && s.hold[k].num % |s.hold| == k;
    }
    HeldWithin(s, s.recvNext, s.recvNext);
    forall n | t.recvHighest - |t.seen| < n <= t.recvHighest
      ensures BitOf(t.seen, n) <==> 1 <= n && (n < t.recvNext || Held(t, n))
    {
      assert BitOf(s.seen, n) <==> 1 <= n && (n < s.recvNext || Held(s, n));
    }
  }

  function AfterDrainStep(s: InState): (r: InState)
    requires Shape(s) && |s.hold| > 0
  {
    s.(hold := s.hold[s.recvNext % |s.hold| := FREE_HOLD],
       heldCount := if s.heldCount > 0 then s.heldCount - 1 else 0,
       recvNext := s.recvNext + 1)
  }

  lemma {:induction false} DrainRunEmpty(s: InState)
    requires Shape(s)
    ensures |s.hold| == 0 ==> DrainRun(s) == Delivery(s, [])
  {
  }

  lemma {:induction false} DrainRunUnfold(s: InState)
    requires Shape(s) && |s.hold| > 0
    ensures Held(s, s.recvNext) ==>
      DrainRun(s) == Delivery(DrainRun(AfterDrainStep(s)).st,
        [s.hold[s.recvNext % |s.hold|].packet.value] + DrainRun(AfterDrainStep(s)).out)
    ensures !Held(s, s.recvNext) ==> DrainRun(s) == Delivery(s, [])
    ensures Held(s, s.recvNext) ==> HeldSlots(AfterDrainStep(s).hold) < HeldSlots(s.hold)
  {
    var i := s.recvNext % |s.hold|;
    assert Held(s, s.recvNext) ==> i in HeldSlots(s.hold) && i !in HeldSlots(AfterDrainStep(s).hold);
  }

  lemma {:induction false} DrainRunInv(s: InState)
    requires OrderedFrom(s, s.recvNext)
    ensures OrderedInv(DrainRun(s).st)
    ensures DrainRun(s).st.mode == s.mode && DrainRun(s).st.recvHighest == s.recvHighest
    decreases HeldSlots(s.hold)
  {
    DrainRunUnfold(s);
    if Held(s, s.recvNext) {
      DrainStep(s, AfterDrainStep(s));
      DrainRunInv(AfterDrainStep(s));
    }
  }

  /** What left is the stretch of the stream the cursor moved over, and what is
      still held is still from the stream. */
  ghost predicate HandsOver(from: nat, d: Delivery, stream: seq<Body>) {
    && 1 <= from <= d.st.recvNext <= |stream| + 1
    && d.out == stream[from - 1..d.st.recvNext - 1]
    && HoldsFrom(d.st, stream)
  }

  lemma {:induction false} StepHolds(s: InState, t: InState, stream: seq<Body>)
    requires Shape(s) && |s.hold| > 0 && HoldsFrom(s, stream) && Held(s, s.recvNext) && t == AfterDrainStep(s)
    ensures HoldsFrom(t, stream) && 1 <= s.recvNext <= |stream|
    ensures s.hold[s.recvNext % |s.hold|].packet.value == stream[s.recvNext - 1]
  {
  }

  lemma {:induction false} HandOne(from: nat, d: Delivery, stream: seq<Body>)
    requires 1 <= from <= |stream| && HandsOver(from + 1, d, stream)
    ensures HandsOver(from, Delivery(d.st, [stream[from - 1]] + d.out), stream)
  {
    assert stream[from - 1..d.st.recvNext - 1] == [stream[from - 1]] + stream[from..d.st.recvNext - 1];
  }

  lemma {:induction false} DrainRunStream(s: InState, stream: seq<Body>)
    requires Shape(s) && |s.hold| > 0
    requires HoldsFrom(s, stream) && s.recvNext <= |stream| + 1
    ensures HandsOver(s.recvNext, DrainRun(s), stream)
    decreases HeldSlots(s.hold)
  {
    hide DrainRun;
    DrainRunUnfold(s);
    if Held(s, s.recvNext) {
      var t := AfterDrainStep(s);
      StepHolds(s, t, stream);
      hide HoldsFrom;
      DrainRunStream(t, stream);
      HandOne(s.recvNext, DrainRun(t), stream);
    }
  }

  /** The packets out are the ones held from sequence first on. */
  ghost predicate HeldRun(s: InState, first: nat, out: seq<Body>) {
    forall k :: 0 <= k < |out| ==> HeldAs(s, first + k, out[k])
  }

  predicate HeldAs(s: InState, n: nat, body: Body) {
    |s.hold| > 0 && s.hold[n % |s.hold|] == HoldbackEntry(n, Some(body))
  }

  lemma {:induction false} RunBefore(s: InState, t: InState, out: seq<Body>)
    requires Shape(s) && |s.hold| > 0 && Held(s, s.recvNext) && t == AfterDrainStep(s)
    requires HeldRun(t, t.recvNext, out)
    ensures HeldRun(s, s.recvNext, [s.hold[s.recvNext % |s.hold|].packet.value] + out)
  {
    var all := [s.hold[s.recvNext % |s.hold|].packet.value] + out;
    forall k | 0 <= k < |all|
      ensures HeldAs(s, s.recvNext + k, all[k])
    {
      if k > 0 {
        assert HeldAs(t, t.recvNext + (k - 1), out[k - 1]);
        assert t.recvNext + (k - 1) == s.recvNext + k;
      }
    }
  }

  /** A drain takes every held packet from the cursor on, and stops at the first
      sequence that is not held. */
  lemma {:induction false} DrainRunExact(s: InState)
    requires Shape(s) && |s.hold| > 0
    ensures var d := DrainRun(s);
      && d.st.recvNext == s.recvNext + |d.out|
      && HeldRun(s, s.recvNext, d.out)
      && !Held(s, d.st.recvNext)
    decreases HeldSlots(s.hold)
  {
    hide DrainRun;
    DrainRunUnfold(s);
    if Held(s, s.recvNext) {
      var t := AfterDrainStep(s);
      DrainRunExact(t);
      RunBefore(s, t, DrainRun(t).out);
    }
  }

  /** What any arrival on an ordered flow hands over, exactly: at the cursor, when a
      run is held or there is room, the packet itself and then every held packet up
      to the first gap; in every other case nothing, and the cursor stays. */
  lemma {:induction false} DeliverOrderedExact(s: InState, n: nat, body: Body, room: bool)
    requires Shape(s) && |s.hold| > 0
    ensures var d := DeliverOrdered(s, n, body, room);
      && d.st.recvNext == s.recvNext + |d.out|
      && (|d.out| > 0 <==> n == s.recvNext && (room || s.heldCount > 0))
      && (|d.out| > 0 ==> d.out[0] == body && HeldRun(s, n + 1, d.out[1..]) && !Held(s, d.st.recvNext))
  {
    hide DrainRun, CommitBits;
    if n == s.recvNext && (room || s.heldCount > 0) {
      var c := ArmAck(Commit(s, n)).(recvNext := n + 1);
      DrainRunExact(c);
      var d, run := DeliverOrdered(s, n, body, room), DrainRun(c);
      assert d.out == [body] + run.out;
      assert d.out[1..] == run.out;
      forall k | 0 <= k < |run.out|
        ensures HeldAs(s, n + 1 + k, run.out[k])
      {
        assert HeldAs(c, c.recvNext + k, run.out[k]);
      }
    }
  }

  /** Every arrival on an ordered flow counts towards the next acknowledgement, and one
      that is not the cursor packet asks for it at once, except a packet already held. */
  lemma {:induction false} AckOwed(s: InState, n: nat, body: Body, room: bool)
    requires Shape(s) && |s.hold| > 0 && s.newSinceFlush < 0xFFFF_FFFF
    ensures var d := DeliverOrdered(s, n, body, room);
      var again := room && s.recvNext < n < s.recvNext + |s.hold| && s.hold[n % |s.hold|].packet.Some?;
      && d.st.newSinceFlush == s.newSinceFlush + (if again then 0 else 1)
      && d.st.ackImmediate == (s.ackImmediate || (n != s.recvNext && !again))
  {
    hide DrainRun, CommitBits;
    if n == s.recvNext && (room || s.heldCount > 0) {
      DrainQuiet(ArmAck(Commit(s, n)).(recvNext := n + 1));
    }
  }

  lemma {:induction false} DrainQuiet(s: InState)
    requires Shape(s) && |s.hold| > 0
    ensures DrainRun(s).st.newSinceFlush == s.newSinceFlush && DrainRun(s).st.ackImmediate == s.ackImmediate
    decreases HeldSlots(s.hold)
  {
    hide DrainRun;
    DrainRunUnfold(s);
    if Held(s, s.recvNext) {
      DrainQuiet(AfterDrainStep(s));
    }
  }

  /** The cursor packet: it and the run behind it leave in stream order. */
  lemma {:induction false} DeliverAtCursor(s: InState, body: Body, room: bool, stream: seq<Body>)
    requires Shape(s) && |s.hold| > 0
    requires HoldsFrom(s, stream)
    requires s.recvNext <= |stream| && body == stream[s.recvNext - 1]
    ensures HandsOver(s.recvNext, DeliverOrdered(s, s.recvNext, body, room), stream)
  {
    hide DrainRun, CommitBits;
    var n := s.recvNext;
    if s.heldCount != 0 || room {
      var c := ArmAck(Commit(s, n)).(recvNext := n + 1);
      assert HoldsFrom(c, stream);
      DrainRunStream(c, stream);
      var d := DrainRun(c);
      assert stream[n - 1..d.st.recvNext - 1] == [stream[n - 1]] + stream[n..d.st.recvNext - 1];
    }
  }

  lemma {:induction false} CursorCommitted(s: InState, c: InState)
    requires OrderedInv(s)
    requires c == ArmAck(Commit(s, s.recvNext)).(recvNext := s.recvNext + 1)
    ensures OrderedFrom(c, c.recvNext)
  {
    var n := s.recvNext;
    forall m | c.recvHighest - |c.seen| < m <= c.recvHighest
      ensures BitOf(c.seen, m) <==> 1 <= m && (m < c.recvNext || Held(c, m))
    {
      CommitOrdered(s, n, m);
      assert Held(c, m) <==> Held(s, m);
    }
  }

  /** A packet ahead of the cursor is held in its own slot, or refused. An
      occupied slot inside the window always holds this very sequence. */
  lemma {:induction false} DeliverAhead(s: InState, n: nat, body: Body, room: bool)
    requires OrderedInv(s)
    requires s.recvNext < n
    ensures OrderedInv(DeliverOrdered(s, n, body, room).st)
    ensures n < s.recvNext + |s.hold| && s.hold[n % |s.hold|].packet.Some? ==> Held(s, n)
    ensures n < s.recvNext + |s.hold| && room ==> Held(DeliverOrdered(s, n, body, room).st, n)
  {
    if n < s.recvNext + |s.hold| {
      var i := n % |s.hold|;
      if s.hold[i].packet.Some? {
        SameSlot(n, s.hold[i].num, |s.hold|);
      } else if room {
        HoldNew(s, n, body);
      }
    }
  }

  lemma {:induction false} HoldNew(s: InState, n: nat, body: Body)
    requires OrderedInv(s)
    requires s.recvNext < n < s.recvNext + |s.hold| && s.hold[n % |s.hold|].packet.None?
    ensures var d := DeliverOrdered(s, n, body, true);
      && OrderedInv(d.st) && Held(d.st, n)
      && d.st.hold == s.hold[n % |s.hold| := HoldbackEntry(n, Some(body))]
  {
    var i := n % |s.hold|;
    var c := DeliverOrdered(s, n, body, true).st;
    CountHeldUpdate(s.hold, i, HoldbackEntry(n, Some(body)));
    forall m | c.recvHighest - |c.seen| < m <= c.recvHighest
      ensures BitOf(c.seen, m) <==> 1 <= m && (m < c.recvNext || Held(c, m))
    {
      CommitOrdered(s, n, m);
      assert Held(c, m) <==> m == n || Held(s, m);
    }
  }

  /** Any arrival, genuine or not: the cursor only moves forward and the ring
      and bitmap stay consistent. */
  lemma {:induction false} DeliverOrderedKeeps(s: InState, n: nat, body: Body, room: bool)
    requires OrderedInv(s)
    ensures OrderedInv(Deliver(s, n, body, room).st)
    ensures Deliver(s, n, body, room).st.mode == s.mode
  {
    if n == s.recvNext {
      if s.heldCount != 0 || room {
        var c := ArmAck(Commit(s, n)).(recvNext := n + 1);
        CursorCommitted(s, c);
        DrainRunInv(c);
      }
    } else if n > s.recvNext {
      DeliverAhead(s, n, body, room);
    }
  }

  lemma {:induction false} HoldFromStream(s: InState, t: InState, n: nat, body: Body, stream: seq<Body>)
    requires HoldsFrom(s, stream)
    requires 1 <= n <= |stream| && body == stream[n - 1]
    requires t.hold == s.hold ||
             (|s.hold| > 0 && t.hold == s.hold[n % |s.hold| := HoldbackEntry(n, Some(body))])
    ensures HoldsFrom(t, stream)
  {
  }

  lemma {:induction false} OffCursorSilent(s: InState, n: nat, body: Body, room: bool)
    requires Shape(s)
    requires n != s.recvNext
    ensures var d := DeliverOrdered(s, n, body, room);
      && d.out == [] && d.st.recvNext == s.recvNext
      && (d.st.hold == s.hold ||
          (|s.hold| > 0 && d.st.hold == s.hold[n % |s.hold| := HoldbackEntry(n, Some(body))]))
  {
  }

  /** Any packet of the stream, in any order, any number of times: what leaves is
      the next stretch of the stream. */
  lemma {:induction false} DeliverOrderedStream(s: InState, n: nat, body: Body, room: bool, stream: seq<Body>)
    requires Shape(s) && IsOrdered(s.mode) && HoldsFrom(s, stream) && s.recvNext <= |stream| + 1
    requires 1 <= n <= |stream| && body == stream[n - 1]
    ensures HandsOver(s.recvNext, Deliver(s, n, body, room), stream)
  {
    if n == s.recvNext {
      DeliverAtCursor(s, body, room, stream);
    } else {
      OffCursorSilent(s, n, body, room);
      HoldFromStream(s, DeliverOrdered(s, n, body, room).st, n, body, stream);
    }
  }

  /** The reclaim forgets the held packets and exactly their bits: what is left
      marked seen is what was delivered. */
  lemma {:induction false} DropHoldbackOrdered(s: InState)
    requires OrderedInv(s)
    ensures OrderedInv(DropHoldback(s))
    ensures forall n :: SeenAt(DropHoldback(s).seen, s.recvHighest, n) <==>
      SeenAt(s.seen, s.recvHighest, n) && n < s.recvNext
  {
    var d := DropHoldback(s);
    CountHeldEmpty(d.hold, |d.hold|);
    forall n | s.recvHighest - |s.seen| < n <= s.recvHighest
      ensures BitOf(d.seen, n) <==> 1 <= n && n < s.recvNext
      ensures 1 <= n < s.recvNext ==> BitOf(s.seen, n)
    {
      DroppedBit(s, n);
    }
  }

  lemma {:induction false} HeldHasBit(hold: seq<HoldbackEntry>, n: int)
    requires |hold| > 0
    ensures hold[n % |hold|].packet.Some? && hold[n % |hold|].num == n ==>
      HeldBit(hold, n % |hold|, |hold|)
  {
  }

  lemma {:induction false} DroppedBit(s: InState, n: int)
    requires OrderedInv(s)
    requires s.recvHighest - |s.seen| < n <= s.recvHighest
    ensures BitOf(DropHoldback(s).seen, n) <==> 1 <= n && n < s.recvNext
    ensures 1 <= n < s.recvNext ==> BitOf(s.seen, n)
  {
    var k := n % |s.seen|;
    assert BitOf(s.seen, n) <==> 1 <= n && (n < s.recvNext || Held(s, n));
    HeldHasBit(s.hold, n);
    if HeldBit(s.hold, k, |s.seen|) {
      var i :| 0 <= i < |s.hold| && s.hold[i].packet.Some? && s.hold[i].num % |s.seen| == k;
      SameSlot(n, s.hold[i].num, |s.seen|);
    }
  }
  // --- Flows that do not order ---

  /** Exactly what an arrival on a flow without order hands over: a reliable flow
      whatever it has not seen, an unreliable one only what is newer than everything
      before it; both only with room, and then the packet is remembered. */
  lemma {:induction false} DeliverUnorderedExact(s: InState, n: nat, body: Body, room: bool)
    requires Shape(s) && !IsOrdered(s.mode)
    ensures var d := Deliver(s, n, body, room);
      && d.out == (if room && TakesNew(s, n) then [body] else [])
      && (d.out != [] ==> AlreadySeen(d.st.seen, d.st.recvHighest, n) && d.st.recvHighest == Max(s.recvHighest, n))
      && (!room && TakesNew(s, n) ==> d.st == ArmAck(s))
  {
    if room && TakesNew(s, n) {
      CommitBitsLaw(s.seen, s.recvHighest, n);
    }
  }

  predicate TakesNew(s: InState, n: nat)
    requires Shape(s)
  {
    if s.mode == Unreliable then n > s.recvHighest
    else n > s.recvHighest || (n > s.recvHighest - |s.seen| && n > 0 && !s.seen[n % |s.seen|])
  }

  datatype Arrival = Arrival(num: nat, body: Body, room: bool)

  function AfterArrivals(mode: FlowMode, arrivals: seq<Arrival>): (s: InState)
    ensures Shape(s) && s.mode == mode
    requires !IsOrdered(mode)
  {
    if arrivals == [] then Fresh(mode)
    else
      var a := arrivals[|arrivals| - 1];
      Deliver(AfterArrivals(mode, arrivals[..|arrivals| - 1]), a.num, a.body, a.room).st
  }

  /** Which arrivals an unreliable flow hands over. */
  predicate Delivers(arrivals: seq<Arrival>, i: nat)
    requires i < |arrivals|
  {
    var a := arrivals[i];
    Deliver(AfterArrivals(Unreliable, arrivals[..i]), a.num, a.body, a.room).out != []
  }

  lemma {:induction false} HighestBounds(arrivals: seq<Arrival>, i: nat)
    requires i <= |arrivals|
    ensures AfterArrivals(Unreliable, arrivals[..i]).recvHighest <= AfterArrivals(Unreliable, arrivals).recvHighest
    decreases |arrivals|
  {
    if i == |arrivals| {
      assert arrivals[..i] == arrivals;
    } else {
      assert arrivals[..|arrivals| - 1][..i] == arrivals[..i];
      HighestBounds(arrivals[..|arrivals| - 1], i);
    }
  }

  /** Newest wins: over any arrivals, lost, repeated and reordered as they may be,
      the sequences an unreliable flow hands over strictly increase. */
  lemma {:induction false} NewestWins(arrivals: seq<Arrival>, i: nat, j: nat)
    requires i < j < |arrivals| && Delivers(arrivals, i) && Delivers(arrivals, j)
    ensures arrivals[i].num < arrivals[j].num
  {
    var a := arrivals[i];
    var before := AfterArrivals(Unreliable, arrivals[..i]);
    DeliverUnorderedExact(before, a.num, a.body, a.room);
    assert arrivals[..i + 1][..i] == arrivals[..i];
    assert AfterArrivals(Unreliable, arrivals[..i + 1]) == Deliver(before, a.num, a.body, a.room).st;
    assert arrivals[..j][..i + 1] == arrivals[..i + 1];
    HighestBounds(arrivals[..j], i + 1);
    DeliverUnorderedExact(AfterArrivals(Unreliable, arrivals[..j]), arrivals[j].num, arrivals[j].body, arrivals[j].room);
  }
}
