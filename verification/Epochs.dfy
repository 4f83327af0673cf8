/** One reaction per loss event, over a whole history of one peer: packets of any of
    its flows are stamped with the eight-bit epoch as they leave, losses are folded
    into reports under one lock, and the reports reach the controller later, in any
    order. Beside each stamp stands what it abbreviates, the number of reactions
    the controller had made by then. */
module Epochs {
  import opened FlowTypes
  import opened Sender
  import opened CongestionModel

  /** A flow's ring, and for each entry the reactions made when it was stamped. */
  datatype Tracked = Tracked(mode: FlowMode, ring: seq<InFlightEntry>, stamps: seq<nat>)

  /** Feedback being gathered, and the stamps of the losses it tells of. */
  datatype Report = Report(delta: Delta, lost: seq<nat>)

  datatype World = World(c: Control, reactions: nat, flows: seq<Tracked>, reports: seq<Report>)

  datatype Event =
    | Opens(mode: FlowMode)
    | Stamps(a: nat, num: nat, now: nat, flying: bool, slot: nat, wireSize: nat)
    | Touches(a: nat, ring: seq<InFlightEntry>)
    | Begins
    | Declares(j: nat, a: nat, largest: nat, now: nat, lossDelay: nat)
    | GivesUp(j: nat, a: nat, i: nat)
    | Notes(j: nat, delta: Delta)
    | Applies(j: nat, f: Feedback)

  predicate Aligned(w: World) {
    forall a :: 0 <= a < |w.flows| ==>
      |w.flows[a].ring| == |w.flows[a].stamps| == WindowFor(w.flows[a].mode)
  }

  /** The stamps of what a declaration marks lost, among the first n entries. */
  function LostTo(t: Tracked, largest: nat, now: nat, lossDelay: nat, n: nat): (r: seq<nat>)
    requires n <= |t.ring| == |t.stamps|
  {
    if n == 0 then []
    else
      var p := LostTo(t, largest, now, lossDelay, n - 1);
      if DeclaredLost(t.ring[n - 1], largest, now, lossDelay) then p + [t.stamps[n - 1]] else p
  }

  function Declared(r: Report, t: Tracked, largest: nat, now: nat, lossDelay: nat): (s: Report)
    requires |t.ring| == |t.stamps|
  {
    Report(LoseDelta(r.delta, t.ring, largest, now, lossDelay),
           r.lost + LostTo(t, largest, now, lossDelay, |t.ring|))
  }

  function GivenUp(r: Report, t: Tracked, i: nat): (s: Report)
    requires i < |t.ring| == |t.stamps|
  {
    Report(ResolveDelta(r.delta, t.ring[i], false), if Live(t.ring[i]) then r.lost + [t.stamps[i]] else r.lost)
  }

  function StampAt(t: Tracked, e: InFlightEntry, stamp: nat): (u: Tracked)
    requires |t.ring| == |t.stamps| > 0
  {
    t.(ring := t.ring[e.num % |t.ring| := e], stamps := t.stamps[e.num % |t.ring| := stamp])
  }

  /** Acknowledging, resending, refunding, releasing and draining: an entry may be
      freed, and none is stamped. */
  ghost predicate KeepsStamps(ring: seq<InFlightEntry>, was: seq<InFlightEntry>) {
    && |ring| == |was|
    && forall i :: 0 <= i < |ring| ==> ring[i].epoch == was[i].epoch && (ring[i].num == was[i].num || ring[i].num == 0)
  }

  ghost predicate Moves(w: World, e: Event, v: World, l: Limits)
    requires Aligned(w)
  {
    match e
    case Opens(mode) =>
      v == w.(flows := w.flows + [Tracked(mode, FreshOut(mode, 0, map[]).ring, seq(WindowFor(mode), i => w.reactions))])
    case Stamps(a, num, now, flying, slot, wireSize) =>
      && a < |w.flows| && num != 0 && w.flows[a].ring[num % |w.flows[a].ring|].num == 0
      && v == w.(flows := w.flows[a :=
                   StampAt(w.flows[a], StampEntry(num, now, flying, slot, wireSize, w.c.epoch), w.reactions)])
    case Touches(a, ring) =>
      && a < |w.flows| && KeepsStamps(ring, w.flows[a].ring)
      && v == w.(flows := w.flows[a := w.flows[a].(ring := ring)])
    case Begins => v == w.(reports := w.reports + [Report(NO_FEEDBACK, [])])
    case Declares(j, a, largest, now, lossDelay) =>
      && j < |w.reports| && a < |w.flows| && w.flows[a].mode != Unreliable
      && v == w.(reports := w.reports[j := Declared(w.reports[j], w.flows[a], largest, now, lossDelay)],
                 flows := w.flows[a := w.flows[a].(ring := LoseRing(w.flows[a].ring, largest, now, lossDelay))])
    case GivesUp(j, a, i) =>
      && j < |w.reports| && a < |w.flows| && i < |w.flows[a].ring| && w.flows[a].mode == Unreliable
      && v == w.(reports := w.reports[j := GivenUp(w.reports[j], w.flows[a], i)],
                 flows := w.flows[a := w.flows[a].(ring :=
                   w.flows[a].ring[i := ResolveEntry(false, w.flows[a].ring[i], false)])])
    case Notes(j, delta) =>
      && j < |w.reports| && SameLosses(delta, w.reports[j].delta)
      && v == w.(reports := w.reports[j := w.reports[j].(delta := delta)])
    case Applies(j, f) =>
      && j < |w.reports| && f.delta == w.reports[j].delta
      && v == w.(c := Applied(w.c, f, l), reactions := w.reactions + Reactions(w.c, f, l),
                 reports := w.reports[..j] + w.reports[j + 1..])
  }

  const REGISTERED := World(START, 0, [], [])

  ghost predicate IsHistory(states: seq<World>, events: seq<Event>, l: Limits) {
    && |states| == |events| + 1
    && states[0] == REGISTERED
    && forall k :: 0 <= k < |events| ==> Linked(states[k], events[k], states[k + 1], l)
  }

  /** Histories start with aligned rings, and every step keeps them so. */
  ghost predicate Linked(w: World, e: Event, v: World, l: Limits) {
    Aligned(w) ==> Moves(w, e, v, l)
  }

  // --- What a report carries ---

  function Newest(lost: seq<nat>): (m: nat)
    requires lost != []
    ensures m in lost && forall s :: s in lost ==> s <= m
  {
    var last := lost[|lost| - 1];
    if |lost| == 1 then last
    else
      var before := Newest(lost[..|lost| - 1]);
      assert lost == lost[..|lost| - 1] + [last];
      if last > before then last else before
  }

  /** No two stamps lie 128 reactions apart. */
  ghost predicate Close(lost: seq<nat>) {
    forall s, t :: s in lost && t in lost ==> s - t < 128
  }

  /** The epoch reported is a loss's own, and the newest one's when they are close. */
  ghost predicate Carries(r: Report) {
    && (r.delta.sawLoss <==> r.lost != [])
    && (r.lost != [] ==> exists s :: s in r.lost && r.delta.lostEpoch == s % 256)
    && (r.lost != [] && Close(r.lost) ==> r.delta.lostEpoch == Newest(r.lost) % 256)
  }

  lemma {:induction false} SignedGap(s: nat, t: nat)
    requires -128 <= s - t < 128
    ensures Signed8(s % 256 - t % 256) == s - t
  {
    if s <= t {
      GapModulo(s, t);
    } else {
      GapModulo(t, s);
      var g := s % 256 - t % 256;
      assert (t % 256 - s % 256) % 256 == (-g) % 256;
      assert (s - t) % 256 == s - t;
    }
  }

  /** The wrapping comparison keeps the newer of two stamps exactly when they are
      fewer than 128 reactions apart, modulo 256. */
  lemma {:induction false} NewerKept(d: Delta, older: nat, newer: nat)
    requires older <= newer && d.sawLoss && d.lostEpoch == older % 256
    ensures NoteLoss(d, newer % 256).lostEpoch == newer % 256 <==> (newer - older) % 256 < 128
  {
    GapModulo(older, newer);
    var g := newer % 256 - older % 256;
    assert (older % 256 - newer % 256) % 256 == (-g) % 256;
  }

  lemma {:induction false} NoteCarries(r: Report, stamp: nat)
    requires Carries(r)
    ensures Carries(Report(NoteLoss(r.delta, stamp % 256), r.lost + [stamp]))
  {
    hide Signed8;
    var lost := r.lost + [stamp];
    assert lost[..|lost| - 1] == r.lost;
    assert stamp in lost && forall s :: s in r.lost ==> s in lost;
    if r.lost != [] && Close(lost) {
      var m := Newest(r.lost);
      assert stamp - m < 128 && m - stamp < 128;
      SignedGap(stamp, m);
    }
  }

  lemma {:induction false} BytesCarry(r: Report, d: Delta)
    requires Carries(r) && d.sawLoss == r.delta.sawLoss && d.lostEpoch == r.delta.lostEpoch
    ensures Carries(r.(delta := d))
  {
  }

  ghost predicate Stamped(t: Tracked, reactions: nat) {
    && |t.ring| == |t.stamps|
    && forall i :: 0 <= i < |t.ring| ==>
         t.stamps[i] <= reactions && (t.ring[i].num != 0 ==> t.ring[i].epoch == t.stamps[i] % 256)
  }

  ghost predicate Past(lost: seq<nat>, reactions: nat) {
    forall s :: s in lost ==> s <= reactions
  }

  lemma {:induction false} DeclareCarries(r: Report, t: Tracked, largest: nat, now: nat, lossDelay: nat, n: nat, reactions: nat)
    requires Carries(r) && Past(r.lost, reactions) && Stamped(t, reactions) && n <= |t.ring|
    ensures var s := Report(LoseDeltaTo(r.delta, t.ring, largest, now, lossDelay, n),
                            r.lost + LostTo(t, largest, now, lossDelay, n));
      Carries(s) && Past(s.lost, reactions)
  {
    hide Carries;
    if n == 0 {
      assert r.lost + LostTo(t, largest, now, lossDelay, 0) == r.lost;
    } else {
      DeclareCarries(r, t, largest, now, lossDelay, n - 1, reactions);
      var p := Report(LoseDeltaTo(r.delta, t.ring, largest, now, lossDelay, n - 1),
                      r.lost + LostTo(t, largest, now, lossDelay, n - 1));
      var e := t.ring[n - 1];
      if DeclaredLost(e, largest, now, lossDelay) {
        var d := p.delta.(lostDeclaredBytes := p.delta.lostDeclaredBytes + e.wireSize);
        BytesCarry(p, d);
        NoteCarries(p.(delta := d), t.stamps[n - 1]);
        assert p.lost + [t.stamps[n - 1]] == r.lost + LostTo(t, largest, now, lossDelay, n);
      }
    }
  }

  lemma {:induction false} GiveUpCarries(r: Report, t: Tracked, i: nat, reactions: nat)
    requires Carries(r) && Past(r.lost, reactions) && Stamped(t, reactions) && i < |t.ring|
    ensures Carries(GivenUp(r, t, i)) && Past(GivenUp(r, t, i).lost, reactions)
  {
    hide Carries;
    var e := t.ring[i];
    if Live(e) {
      var d := r.delta.(resolvedBytes := r.delta.resolvedBytes + e.wireSize,
                        resolvedPackets := r.delta.resolvedPackets + 1);
      BytesCarry(r, d);
      NoteCarries(r.(delta := d), t.stamps[i]);
    }
  }

  // --- The invariant ---

  ghost predicate Inv(w: World) {
    && Aligned(w) && w.c.epoch == w.reactions % 256
    && (forall a :: 0 <= a < |w.flows| ==> Stamped(w.flows[a], w.reactions))
    && (forall j :: 0 <= j < |w.reports| ==> Carries(w.reports[j]) && Past(w.reports[j].lost, w.reactions))
  }

  lemma {:induction false} NothingCarried()
    ensures Carries(Report(NO_FEEDBACK, []))
  {
  }

  lemma {:induction false} DeclareKeeps(w: World, e: Event, v: World, l: Limits)
    requires Inv(w) && Moves(w, e, v, l) && e.Declares?
    ensures Inv(v)
  {
    hide Carries, LostTo;
    var t := w.flows[e.a];
    DeclareCarries(w.reports[e.j], t, e.largest, e.now, e.lossDelay, |t.ring|, w.reactions);
  }

  lemma {:induction false} StampKeeps(w: World, e: Event, v: World, l: Limits)
    requires Inv(w) && Moves(w, e, v, l) && (e.Opens? || e.Stamps? || e.Touches?)
    ensures Inv(v)
  {
    hide Carries, Past;
    assert v.reports == w.reports && v.reactions == w.reactions && v.c == w.c;
  }

  lemma {:induction false} ReportKeeps(w: World, e: Event, v: World, l: Limits)
    requires Inv(w) && Moves(w, e, v, l) && (e.Begins? || e.Notes?)
    ensures Inv(v)
  {
    hide Carries;
    NothingCarried();
    if e.Notes? {
      BytesCarry(w.reports[e.j], e.delta);
    }
  }

  lemma {:induction false} GiveUpKeeps(w: World, e: Event, v: World, l: Limits)
    requires Inv(w) && Moves(w, e, v, l) && e.GivesUp?
    ensures Inv(v)
  {
    hide Carries, GivenUp;
    GiveUpCarries(w.reports[e.j], w.flows[e.a], e.i, w.reactions);
  }

  lemma {:induction false} ApplyKeeps(w: World, e: Event, v: World, l: Limits)
    requires Inv(w) && Moves(w, e, v, l) && e.Applies?
    ensures Inv(v)
  {
    hide Carries, Applied, Reactions;
    EpochCountsReactions(w.c, e.f, l);
  }

  lemma {:induction false} MovesKeep(w: World, e: Event, v: World, l: Limits)
    requires Inv(w) && Aligned(w) && Moves(w, e, v, l)
    ensures Inv(v)
  {
    hide Inv, Moves, Aligned;
    match e
    case Opens(_) => StampKeeps(w, e, v, l);
    case Stamps(_, _, _, _, _, _) => StampKeeps(w, e, v, l);
    case Touches(_, _) => StampKeeps(w, e, v, l);
    case Begins => ReportKeeps(w, e, v, l);
    case Notes(_, _) => ReportKeeps(w, e, v, l);
    case Declares(_, _, _, _, _) => DeclareKeeps(w, e, v, l);
    case GivesUp(_, _, _) => GiveUpKeeps(w, e, v, l);
    case Applies(_, _) => ApplyKeeps(w, e, v, l);
  }

  /** From registration on, the epoch is the number of reactions modulo 256, every
      entry carries the epoch it was stamped in, and every report what it lost. */
  lemma {:induction false} RunInv(states: seq<World>, events: seq<Event>, l: Limits, k: nat)
    requires IsHistory(states, events, l) && k < |states|
    ensures Inv(states[k])
  {
    hide Moves, Inv;
    if k == 0 {
      assert Inv(states[0]) by {
        RegisteredInv();
      }
    } else {
      RunInv(states, events, l, k - 1);
      InvAligned(states[k - 1]);
      assert Linked(states[k - 1], events[k - 1], states[k - 1 + 1], l);
      MovesKeep(states[k - 1], events[k - 1], states[k], l);
    }
  }

  lemma {:induction false} InvAligned(w: World)
    requires Inv(w)
    ensures Aligned(w)
  {
  }

  lemma {:induction false} RegisteredInv()
    ensures Inv(REGISTERED)
  {
  }

  // --- When a loss is reacted to ---

  /** The reactions made by the time this call judges its losses. */
  function CountAtLoss(w: World, f: Feedback, l: Limits): (n: nat) {
    w.reactions + if Floors(w.c, f, l) then 1 else 0
  }

  /** How a gap in reactions reads in eight bits. */
  predicate ReadsAsNew(gap: nat) {
    gap % 256 == 0 || gap % 256 > 128
  }

  lemma {:induction false} TrimByStamp(w: World, f: Feedback, l: Limits, stamp: nat)
    requires w.c.epoch == w.reactions % 256 && stamp <= w.reactions
    requires f.delta.sawLoss && f.delta.lostEpoch == stamp % 256
    ensures Trims(w.c, f, l) <==> ReadsAsNew(CountAtLoss(w, f, l) - stamp)
  {
    hide BeforeLoss, Floors, IsNews;
    EpochBeforeLoss(w.c, f, l);
    NewsByGap(BeforeLoss(w.c, f, l), f.delta, stamp, CountAtLoss(w, f, l));
  }

  /** Exactly when a report trims, in every history and however old its losses: no
      loss, no trim; otherwise it is one loss's gap that decides, and the newest
      one's when the losses are close. */
  lemma {:induction false} TrimsByGap(states: seq<World>, events: seq<Event>, l: Limits, k: nat)
    requires IsHistory(states, events, l) && k < |events| && events[k].Applies?
    ensures var w, f := states[k], events[k].f;
      && events[k].j < |w.reports|
      && var lost := w.reports[events[k].j].lost;
         && Past(lost, w.reactions)
         && (lost == [] ==> !Trims(w.c, f, l))
         && (lost != [] ==>
               exists s :: s in lost && (Trims(w.c, f, l) <==> ReadsAsNew(CountAtLoss(w, f, l) - s)))
         && (lost != [] && Close(lost) ==>
               (Trims(w.c, f, l) <==> ReadsAsNew(CountAtLoss(w, f, l) - Newest(lost))))
  {
    hide ReadsAsNew, BeforeLoss, CountAtLoss;
    RunInv(states, events, l, k);
    var w, f := states[k], events[k].f;
    assert Linked(w, events[k], states[k + 1], l);
    var r := w.reports[events[k].j];
    assert Carries(r) && r.delta == f.delta;
    if r.lost != [] {
      var s :| s in r.lost && r.delta.lostEpoch == s % 256;
      TrimByStamp(w, f, l, s);
      if Close(r.lost) {
        TrimByStamp(w, f, l, Newest(r.lost));
      }
    }
  }

  /** While its losses were all stamped within the last 127 reactions, a report trims
      if and only if one of them was stamped since the last reaction, and the call
      reacts at most once. */
  lemma {:induction false} OneReactionPerEvent(states: seq<World>, events: seq<Event>, l: Limits, k: nat)
    requires IsHistory(states, events, l) && k < |events| && events[k].Applies?
    requires events[k].j < |states[k].reports|
    requires forall s :: s in states[k].reports[events[k].j].lost ==> states[k].reactions - s <= 127
    ensures var w, f := states[k], events[k].f;
      && (Trims(w.c, f, l) <==> CountAtLoss(w, f, l) in w.reports[events[k].j].lost)
      && Reactions(w.c, f, l) <= 1
  {
    hide Trims, Moves, Floors;
    TrimsByGap(states, events, l, k);
    var w, f := states[k], events[k].f;
    var lost := w.reports[events[k].j].lost;
    if lost != [] {
      assert Close(lost);
      assert Newest(lost) in lost;
      var gap := CountAtLoss(w, f, l) - Newest(lost);
      assert 0 <= gap <= 128;
      assert ReadsAsNew(gap) <==> gap == 0;
    }
  }
  // --- A loss read wrongly ---

  lemma {:induction false} Extend(states: seq<World>, events: seq<Event>, l: Limits, e: Event, v: World)
    returns (states': seq<World>, events': seq<Event>)
    requires IsHistory(states, events, l) && Linked(states[|events|], e, v, l)
    ensures IsHistory(states', events', l)
    ensures events' == events + [e] && states' == states + [v]
  {
    states', events' := states + [v], events + [e];
    forall k | 0 <= k < |events'|
      ensures Linked(states'[k], events'[k], states'[k + 1], l)
    {
      if k < |events| {
        assert Linked(states[k], events[k], states[k + 1], l);
      }
    }
  }

  /** Nothing else of the flow is in flight. */
  predicate Alone(t: Tracked, i: nat) {
    i < |t.ring| && forall k :: 0 <= k < |t.ring| && k != i ==> t.ring[k].num == 0
  }

  lemma {:induction false} LoneLoss(t: Tracked, i: nat, largest: nat, now: nat, lossDelay: nat, n: nat)
    requires |t.ring| == |t.stamps| && Alone(t, i) && n <= |t.ring|
    requires DeclaredLost(t.ring[i], largest, now, lossDelay)
    ensures LostTo(t, largest, now, lossDelay, n) == if i < n then [t.stamps[i]] else []
    ensures var d := LoseDeltaTo(NO_FEEDBACK, t.ring, largest, now, lossDelay, n);
      d == if i < n then NoteLoss(NO_FEEDBACK.(lostDeclaredBytes := t.ring[i].wireSize), t.ring[i].epoch) else NO_FEEDBACK
  {
    if n > 0 {
      LoneLoss(t, i, largest, now, lossDelay, n - 1);
    }
  }

  /** A call that brings this feedback and nothing else. */
  function Bare(d: Delta): (f: Feedback) {
    IDLE.(delta := d)
  }

  /** With no probe out, news trims and is the only reaction. */
  lemma {:induction false} BareReacts(c: Control, d: Delta, l: Limits)
    requires c.epoch < 256 && d.sawLoss && !d.sawProbe
    ensures !Floors(c, Bare(d), l)
    ensures Trims(c, Bare(d), l) <==> Signed8(d.lostEpoch - c.epoch) >= 0
  {
    hide Judged, Signed8;
    JudgedBudget(c, Bare(d), l);
  }

  lemma {:induction false} HistoryLength(states: seq<World>, events: seq<Event>, l: Limits)
    requires IsHistory(states, events, l)
    ensures |states| == |events| + 1
  {
  }

  lemma {:induction false} OneReaction(c: Control, d: Delta, l: Limits)
    requires c.epoch < 256 && d.sawLoss && !d.sawProbe && d.lostEpoch == c.epoch
    ensures Reactions(c, Bare(d), l) == 1 && Applied(c, Bare(d), l).epoch == (c.epoch + 1) % 256
  {
    hide Applied, Trims, Floors;
    BareReacts(c, d, l);
    EpochCountsReactions(c, Bare(d), l);
  }

  /** The stage of the run below: an old packet out on a reliable flow, an idle
      unreliable flow beside it, and no report open. */
  predicate Staged(w: World, n: nat) {
    && Aligned(w) && |w.flows| == 2 && w.reports == [] && w.reactions == n && w.c.epoch == n % 256
    && w.flows[0].mode == ReliableOrdered && Alone(w.flows[0], 1)
    && w.flows[0].ring[1] == StampEntry(1, 1, true, 0, 100, 0) && w.flows[0].stamps[1] == 0
    && w.flows[1].mode == Unreliable && forall k :: 0 <= k < |w.flows[1].ring| ==> w.flows[1].ring[k].num == 0
  }
  /** A flow just opened before any reaction. */
  function NewFlow(mode: FlowMode): (t: Tracked) {
    Tracked(mode, FreshOut(mode, 0, map[]).ring, seq(WindowFor(mode), i => 0))
  }

  lemma {:induction false} FirstPacket(w: World, l: Limits)
    requires w == REGISTERED.(flows := [NewFlow(ReliableOrdered), NewFlow(Unreliable)])
    ensures var v := w.(flows := w.flows[0 := StampAt(w.flows[0], StampEntry(1, 1, true, 0, 100, 0), 0)]);
      Linked(w, Stamps(0, 1, 1, true, 0, 100), v, l) && Staged(v, 0)
  {
  }

  lemma {:induction false} SetUp(l: Limits) returns (states: seq<World>, events: seq<Event>)
    ensures IsHistory(states, events, l) && Staged(states[|events|], 0)
  {
    var one, two := NewFlow(ReliableOrdered), NewFlow(Unreliable);
    states, events := [REGISTERED], [];
    states, events := Extend(states, events, l, Opens(ReliableOrdered), REGISTERED.(flows := [one]));
    states, events := Extend(states, events, l, Opens(Unreliable), REGISTERED.(flows := [one, two]));
    hide IsHistory, Linked, Staged, StampAt, NewFlow;
    var w := REGISTERED.(flows := [one, two]);
    FirstPacket(w, l);
    states, events := Extend(states, events, l, Stamps(0, 1, 1, true, 0, 100),
                             w.(flows := w.flows[0 := StampAt(w.flows[0], StampEntry(1, 1, true, 0, 100, 0), 0)]));
  }

  /** The idle flow's packet in round n, and the flow with it out. */
  function RoundEntry(w: World, n: nat): (e: InFlightEntry) {
    StampEntry(n + 1, 1, true, INVALID, 100, w.c.epoch)
  }

  function WithPacket(w: World, n: nat): (v: World)
    requires Staged(w, n)
  {
    w.(flows := w.flows[1 := StampAt(w.flows[1], RoundEntry(w, n), n)])
  }

  /** The same, given up and reported. */
  function WithReport(w: World, n: nat): (v: World)
    requires Staged(w, n)
  {
    var t := WithPacket(w, n).flows[1];
    w.(flows := w.flows[1 := t.(ring := t.ring[(n + 1) % |t.ring| := ResolveEntry(false, RoundEntry(w, n), false)])],
       reports := [Report(ResolveDelta(NO_FEEDBACK, RoundEntry(w, n), false), [n])])
  }

  lemma {:induction false} SendsPacket(w: World, n: nat, l: Limits)
    requires Staged(w, n)
    ensures Linked(w, Stamps(1, n + 1, 1, true, INVALID, 100), WithPacket(w, n), l)
  {
  }

  lemma {:induction false} GivesPacketUp(w: World, n: nat, l: Limits)
    requires Staged(w, n)
    ensures var begun := WithPacket(w, n).(reports := [Report(NO_FEEDBACK, [])]);
      && Linked(WithPacket(w, n), Begins, begun, l)
      && Linked(begun, GivesUp(0, 1, (n + 1) % |w.flows[1].ring|), WithReport(w, n), l)
  {
    var begun := WithPacket(w, n).(reports := [Report(NO_FEEDBACK, [])]);
    var i := (n + 1) % |w.flows[1].ring|;
    var told := WithReport(w, n).reports[0];
    assert GivenUp(begun.reports[0], begun.flows[1], i) == told;
    assert begun.reports[0 := told] == [told];
    assert WithReport(w, n).flows == begun.flows[1 := WithReport(w, n).flows[1]];
  }

  lemma {:induction false} Reacts(w: World, n: nat, l: Limits)
    requires Staged(w, n)
    ensures var f := Bare(WithReport(w, n).reports[0].delta);
      var v := WithReport(w, n).(c := Applied(w.c, f, l), reactions := n + 1, reports := []);
      Linked(WithReport(w, n), Applies(0, f), v, l) && Staged(v, n + 1)
  {
    hide Applied, Reactions;
    OneReaction(w.c, WithReport(w, n).reports[0].delta, l);
  }

  /** One more reaction: the idle flow sends a packet and gives it up. */
  lemma {:induction false} Round(states: seq<World>, events: seq<Event>, l: Limits, n: nat)
    returns (states': seq<World>, events': seq<Event>)
    requires IsHistory(states, events, l) && Staged(states[|events|], n)
    ensures IsHistory(states', events', l) && Staged(states'[|events'|], n + 1)
  {
    HistoryLength(states, events, l);
    var w := states[|events|];
    var i := (n + 1) % |w.flows[1].ring|;
    hide IsHistory, Linked, Staged, WithPacket, WithReport, Applied;
    SendsPacket(w, n, l);
    states', events' := Extend(states, events, l, Stamps(1, n + 1, 1, true, INVALID, 100), WithPacket(w, n));
    GivesPacketUp(w, n, l);
    states', events' := Extend(states', events', l, Begins, WithPacket(w, n).(reports := [Report(NO_FEEDBACK, [])]));
    states', events' := Extend(states', events', l, GivesUp(0, 1, i), WithReport(w, n));
    Reacts(w, n, l);
    var f := Bare(WithReport(w, n).reports[0].delta);
    states', events' := Extend(states', events', l, Applies(0, f),
      WithReport(w, n).(c := Applied(w.c, f, l), reactions := n + 1, reports := []));
  }

  lemma {:induction false} Rounds(l: Limits, n: nat) returns (states: seq<World>, events: seq<Event>)
    ensures IsHistory(states, events, l) && Staged(states[|events|], n)
  {
    if n == 0 {
      states, events := SetUp(l);
    } else {
      states, events := Rounds(l, n - 1);
      states, events := Round(states, events, l, n - 1);
    }
  }

  /** The old packet declared lost, alone in its report. */
  function Belated(w: World): (v: World)
    requires Staged(w, 129)
  {
    w.(reports := [Report(LoseDelta(NO_FEEDBACK, w.flows[0].ring, 4, 2, 0), [0])],
       flows := w.flows[0 := w.flows[0].(ring := LoseRing(w.flows[0].ring, 4, 2, 0))])
  }

  lemma {:induction false} DeclaresLate(w: World, l: Limits)
    requires Staged(w, 129)
    ensures var begun := w.(reports := [Report(NO_FEEDBACK, [])]);
      && Linked(w, Begins, begun, l)
      && Linked(begun, Declares(0, 0, 4, 2, 0), Belated(w), l)
  {
    var t := w.flows[0];
    var begun := w.(reports := [Report(NO_FEEDBACK, [])]);
    LoneLoss(t, 1, 4, 2, 0, |t.ring|);
    hide LostTo, LoseDelta, LoseRing;
    var told := Belated(w).reports[0];
    assert Declared(begun.reports[0], t, 4, 2, 0) == told;
    assert begun.reports[0 := told] == [told];
  }

  lemma {:induction false} TrimsLate(w: World, l: Limits)
    requires Staged(w, 129)
    ensures var f := Bare(Belated(w).reports[0].delta);
      && !Floors(w.c, f, l) && Trims(w.c, f, l)
      && Linked(Belated(w), Applies(0, f),
                Belated(w).(c := Applied(w.c, f, l), reactions := 129 + Reactions(w.c, f, l), reports := []), l)
  {
    var t := w.flows[0];
    LoneLoss(t, 1, 4, 2, 0, |t.ring|);
    hide Applied, Reactions, Trims, Floors, LoseDeltaTo, LoseRing, LostTo;
    BareReacts(w.c, LoseDelta(NO_FEEDBACK, t.ring, 4, 2, 0), l);
  }

  /** A history in which the very first packet, declared lost 129 reactions later and
      alone in its report, is taken for news and cuts the budget again. */
  lemma {:induction false} StaleLossTrims(l: Limits) returns (states: seq<World>, events: seq<Event>)
    ensures IsHistory(states, events, l) && |events| > 0 && events[|events| - 1].Applies?
    ensures var w, e := states[|events| - 1], events[|events| - 1];
      && e.j < |w.reports| && w.reports[e.j].lost == [0] && w.reactions == 129
      && !Floors(w.c, e.f, l) && Trims(w.c, e.f, l)
  {
    states, events := Rounds(l, 129);
    HistoryLength(states, events, l);
    var w := states[|events|];
    DeclaresLate(w, l);
    TrimsLate(w, l);
    hide IsHistory, Linked, Applied, Reactions, Trims, Floors, Staged;
    var f := Bare(Belated(w).reports[0].delta);
    states, events := Extend(states, events, l, Begins, w.(reports := [Report(NO_FEEDBACK, [])]));
    states, events := Extend(states, events, l, Declares(0, 0, 4, 2, 0), Belated(w));
    states, events := Extend(states, events, l, Applies(0, f),
      Belated(w).(c := Applied(w.c, f, l), reactions := 129 + Reactions(w.c, f, l), reports := []));
  }
}
