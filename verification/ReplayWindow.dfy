/** The anti-replay filter over received nonce counters, a shifting bitmap of the
    kind section 3.4.3 of RFC 4303 describes: bit i of the map stands for counter
    high - i. A word is its 64 bits, least significant first. */
module ReplayWindows {

  type Word = w: seq<bool> | |w| == 64 witness seq(64, i => false)

  function Zero(): (z: Word) {
    seq(64, i => false)
  }

  function One(): (o: Word) {
    seq(64, i => i == 0)
  }

  function ShiftLeft(w: Word, n: nat): (r: Word)
    requires n < 64
  {
    seq(64, i requires 0 <= i < 64 => i >= n && w[i - n])
  }

  function ShiftRight(w: Word, n: nat): (r: Word)
    requires 0 < n <= 64
  {
    seq(64, i requires 0 <= i < 64 => i + n < 64 && w[i + n])
  }

  function Or(a: Word, b: Word): (r: Word) {
    seq(64, i requires 0 <= i < 64 => a[i] || b[i])
  }

  predicate BitAt(bmp: seq<Word>, i: nat)
    requires i < 64 * |bmp|
  {
    bmp[i / 64][i % 64]
  }

  // --- What the filter promises, without a bitmap ---

  /** Never accepted, not the sentinel, and not a whole window behind the newest. */
  predicate Fresh(counter: nat, accepted: set<nat>, bits: nat) {
    counter != 0 && counter !in accepted && forall x :: x in accepted ==> x < counter + bits
  }

  /** The counters accepted over a whole history of arrivals since the reset. */
  function AcceptedOf(log: seq<nat>, bits: nat): (accepted: set<nat>) {
    if log == [] then {} else Offered(AcceptedOf(log[..|log| - 1], bits), log[|log| - 1], bits)
  }

  function Offered(accepted: set<nat>, counter: nat, bits: nat): (now: set<nat>) {
    if Fresh(counter, accepted, bits) then accepted + {counter} else accepted
  }

  lemma {:induction false} AcceptedGrows(log: seq<nat>, bits: nat, i: nat)
    requires i <= |log|
    ensures AcceptedOf(log[..i], bits) <= AcceptedOf(log, bits)
    decreases |log|
  {
    if i < |log| {
      assert log[..|log| - 1][..i] == log[..i];
      AcceptedGrows(log[..|log| - 1], bits, i);
    } else {
      assert log[..i] == log;
    }
  }

  /** No history accepts the same counter twice. */
  lemma {:induction false} AcceptedAtMostOnce(log: seq<nat>, bits: nat, i: nat, j: nat)
    requires i < j < |log| && log[i] == log[j]
    requires Fresh(log[i], AcceptedOf(log[..i], bits), bits)
    ensures !Fresh(log[j], AcceptedOf(log[..j], bits), bits)
  {
    assert log[..i + 1][..i] == log[..i];
    assert log[i] in AcceptedOf(log[..i + 1], bits);
    assert log[..j][..i + 1] == log[..i + 1];
    AcceptedGrows(log[..j], bits, i + 1);
  }

  /** The bitmap with its high-water mark says exactly which counters of the window
      were accepted. */
  ghost predicate Represents(high: nat, bmp: seq<Word>, accepted: set<nat>) {
    && (forall x :: x in accepted ==> 1 <= x <= high)
    && (high > 0 ==> high in accepted)
    && (forall i: nat :: i < 64 * |bmp| ==> (BitAt(bmp, i) <==> i < high && high - i in accepted))
  }

  /** The word holding bits 64 * src - bitShift and up. */
  function Straddle(bmp: seq<Word>, src: int, bitShift: nat): (v: Word)
    requires src < |bmp| && bitShift < 64
  {
    if src < 0 then Zero()
    else if bitShift != 0 && src - 1 >= 0
    then Or(ShiftLeft(bmp[src], bitShift), ShiftRight(bmp[src - 1], 64 - bitShift))
    else ShiftLeft(bmp[src], bitShift)
  }

  /** One word of the map moved up by diff bits. */
  function MovedWord(bmp: seq<Word>, w: nat, diff: nat): (v: Word)
    requires w < |bmp|
  {
    Straddle(bmp, w - diff / 64, diff % 64)
  }

  /** Word by word, the whole map moves up by diff bits. */
  lemma {:induction false} MovedBit(bmp: seq<Word>, i: nat, diff: nat)
    requires i < 64 * |bmp|
    ensures MovedWord(bmp, i / 64, diff)[i % 64] == (i >= diff && BitAt(bmp, i - diff))
  {
    var w, k := i / 64, i % 64;
    var d, s := diff / 64, diff % 64;
    assert i == 64 * w + k && diff == 64 * d + s;
    if i >= diff {
      if k >= s {
        assert i - diff == 64 * (w - d) + (k - s);
        DivMod64(w - d, k - s);
      } else {
        assert i - diff == 64 * (w - d - 1) + (k + 64 - s);
        DivMod64(w - d - 1, k + 64 - s);
      }
    }
  }

  lemma {:induction false} DivMod64(q: nat, r: nat)
    requires r < 64
    ensures (64 * q + r) / 64 == q && (64 * q + r) % 64 == r
  {
  }

  lemma {:induction false} AcceptedStep(log: seq<nat>, counter: nat, bits: nat)
    ensures AcceptedOf(log + [counter], bits) == Offered(AcceptedOf(log, bits), counter, bits)
  {
    assert (log + [counter])[..|log|] == log;
  }

  /** The high-water mark and one bit decide freshness against the whole history. */
  lemma {:induction false} WindowDecides(high: nat, bmp: seq<Word>, accepted: set<nat>, counter: nat)
    requires |bmp| > 0 && Represents(high, bmp, accepted)
    ensures Fresh(counter, accepted, 64 * |bmp|) <==>
      counter != 0 && (counter > high || (high - counter < 64 * |bmp| && !BitAt(bmp, high - counter)))
  {
    if counter <= high && high - counter < 64 * |bmp| {
      assert BitAt(bmp, high - counter) <==> high - counter < high && counter in accepted;
    }
  }

  lemma {:induction false} EmptyBitmap(bmp: seq<Word>)
    requires forall k :: 0 <= k < |bmp| ==> bmp[k] == Zero()
    ensures Represents(0, bmp, {})
  {
  }

  /** A new highest counter: the moved map with bit zero set represents one more
      accepted counter. */
  lemma {:induction false} SlidRepresents(high: nat, was: seq<Word>, slid: seq<Word>, counter: nat, accepted: set<nat>)
    requires 0 < |was| == |slid| && counter > high
    requires Represents(high, was, accepted)
    requires forall w :: 0 <= w < |was| ==>
      slid[w] == if counter - high >= 64 * |was| then Zero() else MovedWord(was, w, counter - high)
    ensures Represents(counter, slid[0 := Or(slid[0], One())], accepted + {counter})
  {
    var now := slid[0 := Or(slid[0], One())];
    var diff := counter - high;
    forall i: nat | i < 64 * |now|
      ensures BitAt(now, i) <==> i < counter && counter - i in accepted + {counter}
    {
      assert i / 64 < |now|;
      if diff < 64 * |was| {
        MovedBit(was, i, diff);
        assert BitAt(slid, i) <==> i >= diff && BitAt(was, i - diff);
      } else {
        assert !BitAt(slid, i);
      }
      assert BitAt(now, i) <==> i == 0 || BitAt(slid, i);
    }
  }

  lemma {:induction false} MarkRepresents(high: nat, was: seq<Word>, diff: nat, accepted: set<nat>)
    requires Represents(high, was, accepted) && diff < 64 * |was| && diff < high
    ensures var word, bit := diff / 64, diff % 64;
      Represents(high, was[word := was[word][bit := true]], accepted + {high - diff})
  {
    var word, bit := diff / 64, diff % 64;
    var now := was[word := was[word][bit := true]];
    forall i: nat | i < 64 * |now|
      ensures BitAt(now, i) <==> i < high && high - i in accepted + {high - diff}
    {
      assert BitAt(was, i) <==> i < high && high - i in accepted;
      if i / 64 == word && i % 64 == bit {
        assert i == diff;
      }
    }
  }

  class ReplayWindow {
    var high: nat
    const bmp: array<Word>
    /** Every counter offered since the reset. */
    ghost var log: seq<nat>

    ghost function Bits(): (bits: nat) {
      64 * bmp.Length
    }

    ghost predicate Valid()
      reads this, bmp
    {
      bmp.Length > 0 && Represents(high, bmp[..], AcceptedOf(log, Bits()))
    }

    constructor (words: nat)
      requires words > 0
      ensures Valid() && log == [] && bmp.Length == words && fresh(bmp)
    {
      high := 0;
      bmp := new Word[words](i => Zero());
      log := [];
      new;
      EmptyBitmap(bmp[..]);
    }

    method Reset()
      requires bmp.Length > 0
      modifies this, bmp
      ensures Valid() && log == []
    {
      high := 0;
      for i := 0 to bmp.Length
        invariant forall k :: 0 <= k < i ==> bmp[k] == Zero()
        invariant high == 0
      {
        bmp[i] := Zero();
      }
      log := [];
      EmptyBitmap(bmp[..]);
    }

    /** Slides the map up by diff bits, highest word first so each source word is
        read before it is overwritten. */
    method Slide(diff: nat)
      modifies bmp
      ensures forall w :: 0 <= w < bmp.Length ==> bmp[w] == MovedWord(old(bmp[..]), w, diff)
    {
      hide ShiftLeft, ShiftRight, Or;
      var wordShift := diff / 64;
      var bitShift := diff % 64;
      var w := bmp.Length - 1;
      while w >= 0
        invariant -1 <= w < bmp.Length
        invariant forall k :: 0 <= k <= w ==> bmp[k] == old(bmp[k])
        invariant forall k :: w < k < bmp.Length ==> bmp[k] == MovedWord(old(bmp[..]), k, diff)
      {
        var src := w - wordShift;
        var v: Word := Zero();
        if src >= 0 {
          v := ShiftLeft(bmp[src], bitShift);
          if bitShift != 0 && src - 1 >= 0 {
            v := Or(v, ShiftRight(bmp[src - 1], 64 - bitShift));
          }
        }
        bmp[w] := v;
        w := w - 1;
      }
    }

    /** Moves the window up to a new highest counter and marks it. */
    method Advance(counter: nat, ghost accepted: set<nat>)
      requires bmp.Length > 0 && counter > high && Represents(high, bmp[..], accepted)
      modifies this`high, bmp
      ensures high == counter && Represents(high, bmp[..], accepted + {counter})
    {
      hide Represents, MovedWord, Or;
      var diff := counter - high;
      ghost var was := bmp[..];
      if diff >= 64 * bmp.Length {
        for i := 0 to bmp.Length
          modifies bmp
          invariant forall k :: 0 <= k < i ==> bmp[k] == Zero()
        {
          bmp[i] := Zero();
        }
      } else {
        Slide(diff);
      }
      ghost var slid := bmp[..];
      bmp[0] := Or(bmp[0], One());
      assert bmp[..] == slid[0 := Or(slid[0], One())];
      SlidRepresents(high, was, slid, counter, accepted);
      high := counter;
    }

    /** True exactly for a fresh counter, over every history since the reset. */
    method Accept(counter: nat) returns (ok: bool)
      requires Valid()
      modifies this, bmp
      ensures Valid() && log == old(log) + [counter]
      ensures ok == Fresh(counter, AcceptedOf(old(log), Bits()), Bits())
    {
      hide Represents, Fresh, AcceptedOf;
      ghost var before := AcceptedOf(log, Bits());
      WindowDecides(high, bmp[..], before, counter);
      AcceptedStep(log, counter, Bits());
      log := log + [counter];
      if counter == 0 {
        return false;
      }
      if counter > high {
        Advance(counter, before);
        return true;
      }
      var diff := high - counter;
      if diff >= 64 * bmp.Length {
        return false;
      }
      var word := diff / 64;
      var bit := diff % 64;
      if bmp[word][bit] {
        return false;
      }
      MarkRepresents(high, bmp[..], diff, before);
      ghost var was := bmp[..];
      bmp[word] := bmp[word][bit := true];
      assert bmp[..] == was[word := was[word][bit := true]];
      return true;
    }
  }

  /** The filter's own answers over any run of arrivals: yes exactly to a fresh
      counter, so never twice to the same one. */
  method Screen(words: nat, arrivals: seq<nat>) returns (answers: seq<bool>)
    requires words > 0
    ensures |answers| == |arrivals|
    ensures forall i :: 0 <= i < |answers| ==>
      answers[i] == Fresh(arrivals[i], AcceptedOf(arrivals[..i], 64 * words), 64 * words)
    ensures forall i, j :: 0 <= i < j < |answers| && arrivals[i] == arrivals[j] ==> !(answers[i] && answers[j])
  {
    hide Fresh, AcceptedOf, Represents;
    var window := new ReplayWindow(words);
    answers := [];
    for n := 0 to |arrivals|
      invariant fresh(window) && fresh(window.bmp) && window.Valid() && window.bmp.Length == words
      invariant window.log == arrivals[..n] && |answers| == n
      invariant forall i :: 0 <= i < n ==>
        answers[i] == Fresh(arrivals[i], AcceptedOf(arrivals[..i], 64 * words), 64 * words)
    {
      var ok := window.Accept(arrivals[n]);
      answers := answers + [ok];
    }
    forall i, j | 0 <= i < j < |answers| && arrivals[i] == arrivals[j]
      ensures !(answers[i] && answers[j])
    {
      if answers[i] {
        AcceptedAtMostOnce(arrivals, 64 * words, i, j);
      }
    }
  }
}
