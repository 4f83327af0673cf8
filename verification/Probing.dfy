/** How often a peer that has gone silent is asked before its flow is given up: the
    scan's rule for one entry, followed over any series of scans. */
module Probing {
  import opened FlowTypes
  import opened Sender
  import opened OutAssociations
  import Rtt

  /** Nothing is acknowledged, so the estimate stands still and only time runs. */
  datatype Silence = Silence(e: Rtt.Estimate, retryInterval: nat, cadence: nat, lastResolved: nat)

  /** One retransmit scan, and how long the peer had been silent. */
  datatype Scan = Scan(now: nat, silent: nat)

  function Base(s: Silence): (r: nat) {
    Rtt.RetransmitTimeout(s.e, s.retryInterval, s.cadence, 0)
  }

  /** How long after the last resolution the flow is declared dead. */
  function Deadline(s: Silence): (r: nat) {
    Rtt.DeathBound(Base(s), s.retryInterval)
  }

  function Interval(s: Silence, silent: nat): (r: nat) {
    Rtt.ProbeInterval(Rtt.RetransmitTimeout(s.e, s.retryInterval, s.cadence, silent), Base(s), s.retryInterval)
  }

  /** One entry across the scans of a reliable flow that had room and allowance for
      it: asked says which of them sent it again. */
  ghost predicate IsWatched(s: Silence, mode: FlowMode, scans: seq<Scan>, entries: seq<InFlightEntry>, asked: seq<bool>, stall: nat) {
    && mode != Unreliable && |entries| == |scans| + 1 && |asked| == |scans|
    && (forall i, j :: 0 <= i < j < |scans| ==> scans[i].now <= scans[j].now)
    && (forall i :: 0 <= i < |entries| ==> Live(entries[i]) && entries[i].slot != INVALID)
    && (forall i :: 0 <= i < |scans| ==>
          ByAge(mode, entries[i], entries[i + 1], asked[i], false, scans[i].now, Interval(s, scans[i].silent), stall))
  }

  function Count(asked: seq<bool>, n: nat): (r: nat)
    requires n <= |asked|
  {
    if n == 0 then 0 else Count(asked, n - 1) + if asked[n - 1] then 1 else 0
  }

  /** A scan follows every instant of the stretch by no more than gap. */
  ghost predicate Dense(scans: seq<Scan>, from: nat, until: nat, gap: nat) {
    forall x: nat :: from <= x <= until ==> ScanWithin(scans, x, gap)
  }

  ghost predicate ScanWithin(scans: seq<Scan>, x: nat, gap: nat) {
    exists i :: 0 <= i < |scans| && x <= scans[i].now <= x + gap
  }

  lemma {:induction false} CountGrows(asked: seq<bool>, j: nat, n: nat)
    requires j <= n <= |asked|
    ensures Count(asked, j) <= Count(asked, n)
  {
    if j < n {
      CountGrows(asked, j, n - 1);
    }
  }

  /** By the time an entry is an interval old it has been asked for again, and its age
      starts over at that scan. */
  lemma {:induction false} AskedBy(s: Silence, mode: FlowMode, scans: seq<Scan>, entries: seq<InFlightEntry>, asked: seq<bool>,
                                   stall: nat, j: nat, i: nat) returns (c: nat)
    requires IsWatched(s, mode, scans, entries, asked, stall)
    requires j <= i < |scans| && scans[i].now >= entries[j].sentAt + Interval(s, scans[i].silent)
    ensures j <= c <= i && asked[c] && entries[c + 1].sentAt == scans[c].now >= entries[j].sentAt
    decreases i - j
  {
    hide Rtt.ProbeInterval, Rtt.RetransmitTimeout;
    assert ByAge(mode, entries[j], entries[j + 1], asked[j], false, scans[j].now, Interval(s, scans[j].silent), stall);
    if asked[j] {
      c := j;
    } else {
      assert entries[j + 1] == entries[j] && j < i;
      c := AskedBy(s, mode, scans, entries, asked, stall, j + 1, i);
    }
  }

  /** Every interval is at most an eighth of the deadline. */
  lemma {:induction false} IntervalFits(s: Silence, silent: nat)
    ensures 0 < Interval(s, silent) <= Deadline(s) / 8
  {
    hide Rtt.RetransmitTimeout, Rtt.ProbeInterval, Rtt.DeathBound;
    Rtt.ProbesFitBound(s.e, s.retryInterval, s.cadence, silent);
    BasePositive(s);
  }

  lemma {:induction false} BasePositive(s: Silence)
    ensures Base(s) >= 1000
  {
    hide Rtt.Doubled;
  }

  /** n eighths of the deadline, with a scan gap after each. */
  function Allotted(eighth: nat, gap: nat, n: nat): (r: nat) {
    if n == 0 then 0 else Allotted(eighth, gap, n - 1) + eighth + gap
  }

  lemma {:induction false} AllottedIs(eighth: nat, gap: nat, n: nat)
    ensures Allotted(eighth, gap, n) == n * (eighth + gap)
  {
    if n > 0 {
      AllottedIs(eighth, gap, n - 1);
    }
  }

  lemma {:induction false} AskedNext(s: Silence, mode: FlowMode, scans: seq<Scan>, entries: seq<InFlightEntry>, asked: seq<bool>,
                                     stall: nat, gap: nat, k: nat, until: nat) returns (j: nat)
    requires IsWatched(s, mode, scans, entries, asked, stall)
    requires k <= |scans| && (k > 0 ==> scans[k - 1].now == entries[k].sentAt)
    requires entries[0].sentAt <= entries[k].sentAt && entries[k].sentAt + Deadline(s) / 8 + gap <= until
    requires Dense(scans, entries[0].sentAt, until, gap)
    ensures k < j <= |scans| && Count(asked, j) > Count(asked, k)
    ensures entries[k].sentAt <= entries[j].sentAt == scans[j - 1].now <= entries[k].sentAt + Deadline(s) / 8 + gap
  {
    hide Deadline, Interval, ByAge;
    var x := entries[k].sentAt + Deadline(s) / 8;
    assert ScanWithin(scans, x, gap);
    var i :| 0 <= i < |scans| && x <= scans[i].now <= x + gap;
    IntervalFits(s, scans[i].silent);
    assert k <= i;
    var c := AskedBy(s, mode, scans, entries, asked, stall, k, i);
    j := c + 1;
    CountGrows(asked, k, c);
  }

  /** The scan that sends the entry for the n-th time comes within n eighths of the
      deadline and n gaps. */
  lemma {:induction false} AskedTimes(s: Silence, mode: FlowMode, scans: seq<Scan>, entries: seq<InFlightEntry>, asked: seq<bool>,
                                      stall: nat, gap: nat, n: nat, until: nat) returns (j: nat)
    requires IsWatched(s, mode, scans, entries, asked, stall)
    requires entries[0].sentAt + Allotted(Deadline(s) / 8, gap, n) <= until && Dense(scans, entries[0].sentAt, until, gap)
    ensures j <= |scans| && Count(asked, j) >= n
    ensures entries[j].sentAt <= entries[0].sentAt + Allotted(Deadline(s) / 8, gap, n)
    ensures if n == 0 then j == 0 else j > 0 && scans[j - 1].now == entries[j].sentAt
    ensures entries[0].sentAt <= entries[j].sentAt
  {
    hide IsWatched, Dense, Deadline;
    WatchedLength(s, mode, scans, entries, asked, stall);
    if n == 0 {
      j := 0;
    } else {
      var k := AskedTimes(s, mode, scans, entries, asked, stall, gap, n - 1, until);
      j := AskedNext(s, mode, scans, entries, asked, stall, gap, k, until);
    }
  }

  lemma {:induction false} WatchedLength(s: Silence, mode: FlowMode, scans: seq<Scan>, entries: seq<InFlightEntry>, asked: seq<bool>, stall: nat)
    requires IsWatched(s, mode, scans, entries, asked, stall)
    ensures |entries| == |scans| + 1 && |asked| == |scans|
  {
  }

  /** A packet already in flight when the peer last answered is sent again, before the
      flow can be declared dead, as many times as eighths of the deadline and scan
      gaps fit into it. */
  lemma {:induction false} AskedBeforeDeath(s: Silence, mode: FlowMode, scans: seq<Scan>, entries: seq<InFlightEntry>, asked: seq<bool>,
                                            stall: nat, gap: nat, n: nat) returns (j: nat)
    requires IsWatched(s, mode, scans, entries, asked, stall)
    requires n > 0 && n * (Deadline(s) / 8 + gap) <= Deadline(s)
    requires entries[0].sentAt <= s.lastResolved
    requires Dense(scans, entries[0].sentAt, s.lastResolved + Deadline(s), gap)
    ensures 0 < j <= |scans| && |asked| == |scans| && Count(asked, j) >= n
    ensures Elapsed(scans[j - 1].now, s.lastResolved) <= Deadline(s)
  {
    hide IsWatched, Dense, Deadline;
    WatchedLength(s, mode, scans, entries, asked, stall);
    AllottedIs(Deadline(s) / 8, gap, n);
    j := AskedTimes(s, mode, scans, entries, asked, stall, gap, n, s.lastResolved + Deadline(s));
  }

  /** Eight times, if the scan never tarries. */
  lemma {:induction false} EightProbes(s: Silence, mode: FlowMode, scans: seq<Scan>, entries: seq<InFlightEntry>, asked: seq<bool>,
                                       stall: nat) returns (j: nat)
    requires IsWatched(s, mode, scans, entries, asked, stall)
    requires entries[0].sentAt <= s.lastResolved
    requires Dense(scans, entries[0].sentAt, s.lastResolved + Deadline(s), 0)
    ensures 0 < j <= |scans| && |asked| == |scans| && Count(asked, j) >= 8
    ensures Elapsed(scans[j - 1].now, s.lastResolved) <= Deadline(s)
  {
    hide IsWatched, Dense, Deadline;
    j := AskedBeforeDeath(s, mode, scans, entries, asked, stall, 0, 8);
  }
}
