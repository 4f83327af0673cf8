/** The clock half of the send gate: a byte allowance topped up at the budget per
    smoothed round trip, times a gain of 125 percent, and capped at a burst. */
module Pacing {

  const BURST: nat := 2400

  datatype Allowance = Allowance(tokens: nat, refilledAt: nat)

  function Wrapped(x: int): (r: nat) {
    x % 0x1_0000_0000_0000_0000
  }

  function Quotient(n: nat, d: nat): (r: nat)
    requires d > 0
  {
    n / d
  }

  /** 64-bit arithmetic: the product wraps, the quotient then only shrinks. */
  function Gained(budget: nat, srtt: nat, elapsed: nat): (r: nat)
    requires srtt > 0
  {
    Quotient(Wrapped(budget * 125 * elapsed), 100 * srtt)
  }

  function Refill(a: Allowance, budget: nat, srtt: nat, now: nat): (r: Allowance) {
    if srtt == 0 then a
    else if a.refilledAt == 0 || now < a.refilledAt then a.(refilledAt := now)
    else
      var elapsed := now - a.refilledAt;
      if elapsed == 0 then a
      else
        var gained := Gained(budget, srtt, elapsed);
        if gained == 0 then a
        else Allowance(if a.tokens + gained > BURST then BURST else a.tokens + gained, now)
  }

  predicate Allows(a: Allowance, srtt: nat, wireSize: nat) {
    srtt == 0 || a.tokens >= wireSize
  }

  function Spend(a: Allowance, wireSize: nat): (r: Allowance) {
    a.(tokens := if a.tokens > wireSize then a.tokens - wireSize else 0)
  }

  /** At one instant the allowance only tightens: a packet refused stays refused,
      however many refills and spends follow. */
  lemma {:induction false} StaysRefused(a: Allowance, budget: nat, srtt: nat, now: nat, wireSize: nat, spent: nat)
    requires !Allows(Refill(a, budget, srtt, now), srtt, wireSize)
    ensures var b := Refill(a, budget, srtt, now);
      && !Allows(Refill(b, budget, srtt, now), srtt, wireSize)
      && !Allows(Refill(Spend(b, spent), budget, srtt, now), srtt, wireSize)
  {
  }

  /** While the product fits its word, a refill is worth the budget per round trip and a
      quarter more, to the byte. */
  lemma {:induction false} GainedExact(budget: nat, srtt: nat, elapsed: nat)
    requires srtt > 0 && 125 * budget * elapsed < 0x1_0000_0000_0000_0000
    ensures 100 * srtt * Gained(budget, srtt, elapsed) <= 125 * budget * elapsed < 100 * srtt * (Gained(budget, srtt, elapsed) + 1)
  {
    var full, d := budget * 125 * elapsed, 100 * srtt;
    assert full == 125 * budget * elapsed;
    assert Wrapped(full) == full;
    QuotientExact(full, d);
  }

  lemma {:induction false} QuotientExact(n: nat, d: nat)
    requires d > 0
    ensures d * (n / d) <= n < d * (n / d + 1)
  {
    assert n == d * (n / d) + n % d;
  }

  /** No packet of a burst's size or less waits longer than its own bytes take at the
      paced rate. */
  lemma {:induction false} AdmittedSoon(a: Allowance, budget: nat, srtt: nat, now: nat, wireSize: nat)
    requires srtt > 0 && 0 < a.refilledAt <= now && wireSize <= 2400
    requires 125 * budget * (now - a.refilledAt) < 0x1_0000_0000_0000_0000
    requires 100 * srtt * wireSize <= 125 * budget * (now - a.refilledAt)
    ensures Allows(Refill(a, budget, srtt, now), srtt, wireSize)
  {
    var g := Gained(budget, srtt, now - a.refilledAt);
    GainedExact(budget, srtt, now - a.refilledAt);
    hide Gained;
    if g < wireSize {
      ScaleBy(100 * srtt, g + 1, wireSize);
    }
  }

  /** One packet, first send or resend, offered to the clock. */
  datatype Offer = Offer(now: nat, wireSize: nat, budget: nat, srtt: nat)

  datatype Ledger = Ledger(allowance: Allowance, spent: nat)

  function Offered(l: Ledger, o: Offer): (r: Ledger) {
    var a := Refill(l.allowance, o.budget, o.srtt, o.now);
    if Allows(a, o.srtt, o.wireSize) then Ledger(Spend(a, o.wireSize), l.spent + o.wireSize)
    else Ledger(a, l.spent)
  }

  function Run(start: Ledger, offers: seq<Offer>): (r: Ledger) {
    if offers == [] then start
    else Offered(Run(start, offers[..|offers| - 1]), offers[|offers| - 1])
  }

  /** A clock that never goes back, a live round trip no shorter than srttMin and
      a budget no larger than budgetMax. */
  ghost predicate Bounded(offers: seq<Offer>, from: nat, srttMin: nat, budgetMax: nat) {
    && (forall i :: 0 <= i < |offers| ==>
          from <= offers[i].now && 0 < srttMin <= offers[i].srtt && offers[i].budget <= budgetMax)
    && (forall i, j :: 0 <= i < j < |offers| ==> offers[i].now <= offers[j].now)
  }

  lemma {:induction false} GainedWithin(budget: nat, srtt: nat, elapsed: nat, srttMin: nat, budgetMax: nat)
    requires 0 < srttMin <= srtt && budget <= budgetMax
    ensures 100 * srttMin * Gained(budget, srtt, elapsed) <= 125 * budgetMax * elapsed
  {
    var full := budget * 125 * elapsed;
    var g := Gained(budget, srtt, elapsed);
    QuotientWithin(Wrapped(full), 100 * srtt);
    assert Wrapped(full) <= full;
    assert 100 * srtt * g <= full;
    MulMono(100 * srttMin, 100 * srtt, g);
    MulMono(budget, budgetMax, 125 * elapsed);
    assert budget * (125 * elapsed) == full;
    assert budgetMax * (125 * elapsed) == 125 * budgetMax * elapsed;
  }

  lemma {:induction false} QuotientWithin(n: nat, d: nat)
    requires d > 0
    ensures d * (n / d) <= n
  {
  }

  lemma {:induction false} MulMono(a: nat, b: nat, c: nat)
    requires a <= b
    ensures a * c <= b * c
  {
  }

  /** Spent bytes plus the allowance left never outrun the clock. */
  lemma {:induction false} RunWithin(start: Ledger, offers: seq<Offer>, srttMin: nat, budgetMax: nat)
    requires 0 < start.allowance.refilledAt && start.allowance.tokens <= BURST && start.spent == 0
    requires 0 < srttMin
    requires Bounded(offers, start.allowance.refilledAt, srttMin, budgetMax)
    ensures var l := Run(start, offers);
      && start.allowance.refilledAt <= l.allowance.refilledAt
      && (offers != [] ==> l.allowance.refilledAt <= offers[|offers| - 1].now)
      && (offers == [] ==> l == start)
      && 100 * srttMin * (l.spent + l.allowance.tokens) <=
           100 * srttMin * BURST + 125 * budgetMax * (l.allowance.refilledAt - start.allowance.refilledAt)
  {
    if offers == [] {
      MulMono(start.allowance.tokens, BURST, 100 * srttMin);
    } else {
      var k := |offers| - 1;
      RunWithin(start, offers[..k], srttMin, budgetMax);
      var p := Run(start, offers[..k]);
      assert k > 0 ==> offers[k - 1].now <= offers[k].now;
      OfferWithin(p, offers[k], start.allowance.refilledAt, srttMin, budgetMax);
    }
  }

  lemma {:induction false} OfferWithin(p: Ledger, o: Offer, from: nat, srttMin: nat, budgetMax: nat)
    requires 0 < from <= p.allowance.refilledAt <= o.now
    requires 0 < srttMin <= o.srtt && o.budget <= budgetMax
    requires 100 * srttMin * (p.spent + p.allowance.tokens) <=
      100 * srttMin * BURST + 125 * budgetMax * (p.allowance.refilledAt - from)
    ensures var l := Offered(p, o);
      && from <= l.allowance.refilledAt <= o.now
      && 100 * srttMin * (l.spent + l.allowance.tokens) <=
           100 * srttMin * BURST + 125 * budgetMax * (l.allowance.refilledAt - from)
  {
    var a := Refill(p.allowance, o.budget, o.srtt, o.now);
    var e := o.now - p.allowance.refilledAt;
    var g := Gained(o.budget, o.srtt, e);
    GainedWithin(o.budget, o.srtt, e, srttMin, budgetMax);
    if a != p.allowance {
      assert a.refilledAt == o.now && a.tokens <= p.allowance.tokens + g;
      var s := 100 * srttMin;
      MulMono(p.spent + a.tokens, p.spent + p.allowance.tokens + g, s);
      assert s * (p.spent + p.allowance.tokens + g) == s * (p.spent + p.allowance.tokens) + s * g;
      assert 125 * budgetMax * (a.refilledAt - from) ==
             125 * budgetMax * (p.allowance.refilledAt - from) + 125 * budgetMax * e;
    }
    var l := Offered(p, o);
    assert l.spent + l.allowance.tokens == p.spent + a.tokens;
  }

  /** From any refill, by any later offer, the bytes that left are at most the
      burst plus 1.25 times the budget bound times the elapsed time over the
      smallest round trip. */
  lemma {:induction false} PacedRate(start: Ledger, offers: seq<Offer>, srttMin: nat, budgetMax: nat, until: nat)
    requires 0 < start.allowance.refilledAt <= until && start.allowance.tokens <= BURST && start.spent == 0
    requires 0 < srttMin
    requires Bounded(offers, start.allowance.refilledAt, srttMin, budgetMax)
    requires forall i :: 0 <= i < |offers| ==> offers[i].now <= until
    ensures 100 * srttMin * Run(start, offers).spent <=
      100 * srttMin * BURST + 125 * budgetMax * (until - start.allowance.refilledAt)
  {
    RunWithin(start, offers, srttMin, budgetMax);
    var l := Run(start, offers);
    var s, b := 100 * srttMin, 125 * budgetMax;
    ScaleBy(s, l.spent, l.spent + l.allowance.tokens);
    ScaleBy(b, l.allowance.refilledAt - start.allowance.refilledAt, until - start.allowance.refilledAt);
  }

  lemma {:induction false} ScaleBy(c: nat, a: nat, b: nat)
    requires a <= b
    ensures c * a <= c * b
  {
  }
}
