/** The byte every flow packet carries after its sequence: mode, epoch and where the
    packet sits in its message. */
module FlowData {
  import opened Options
  import opened FlowTypes

  datatype FlowPart = Whole | First | Middle | Last

  datatype Header = Header(mode: FlowMode, epoch: bv8, part: FlowPart)

  datatype EpochOrder = Current | Newer | Stale

  predicate PartAllowed(mode: FlowMode, part: FlowPart) {
    part == Whole || IsOrdered(mode)
  }

  function ModeBits(mode: FlowMode): (r: bv8) {
    match mode
    case ReliableOrdered => 0
    case ReliableUnordered => 1
    case Unreliable => 2
    case ReliableOrderedBulk => 3
  }

  function PartBits(part: FlowPart): (r: bv8) {
    match part
    case Whole => 0
    case First => 0x40
    case Middle => 0xC0
    case Last => 0x80
  }

  function Encode(h: Header): (r: Option<bv8>) {
    if h.epoch > 7 || !PartAllowed(h.mode, h.part) then None
    else Some(ModeBits(h.mode) | (h.epoch << 3) | PartBits(h.part))
  }

  function PartOf(data: bv8): (r: FlowPart) {
    if data & 0x80 == 0 then (if data & 0x40 != 0 then First else Whole)
    else if data & 0x40 != 0 then Middle else Last
  }

  function ModeOf(bits: bv8): (r: Option<FlowMode>) {
    if bits == 0 then Some(ReliableOrdered)
    else if bits == 1 then Some(ReliableUnordered)
    else if bits == 2 then Some(Unreliable)
    else if bits == 3 then Some(ReliableOrderedBulk)
    else None
  }

  function Decode(data: bv8): (r: Option<Header>) {
    var mode := ModeOf(data & 7);
    if mode.None? || !PartAllowed(mode.value, PartOf(data)) then None
    else Some(Header(mode.value, (data >> 3) & 7, PartOf(data)))
  }

  /** What is encoded is what is read back. */
  lemma {:induction false} DecodeEncode(h: Header)
    ensures Encode(h).Some? ==> Decode(Encode(h).value) == Some(h)
  {
    if Encode(h).Some? {
      var d := Encode(h).value;
      FieldsApart(ModeBits(h.mode), h.epoch, PartBits(h.part));
      assert d & 7 == ModeBits(h.mode) && (d >> 3) & 7 == h.epoch;
    }
  }

  lemma {:induction false} FieldsApart(m: bv8, e: bv8, p: bv8)
    requires m <= 7 && e <= 7 && (p == 0 || p == 0x40 || p == 0x80 || p == 0xC0)
    ensures var d := m | (e << 3) | p;
      d & 7 == m && (d >> 3) & 7 == e && d & 0x80 == p & 0x80 && d & 0x40 == p & 0x40
  {
  }

  /** A byte is accepted exactly when some header encodes to it: nothing reserved is
      read, nothing written is refused. */
  lemma {:induction false} EncodeDecode(data: bv8)
    ensures Decode(data).Some? ==> Encode(Decode(data).value) == Some(data)
    ensures Decode(data).None? ==> forall h :: Encode(h) != Some(data)
  {
    if Decode(data).Some? {
      var h := Decode(data).value;
      assert ModeBits(h.mode) == data & 7 && PartBits(h.part) == data & 0xC0;
      Reassembled(data);
    } else {
      forall h
        ensures Encode(h) != Some(data)
      {
        DecodeEncode(h);
      }
    }
  }

  lemma {:induction false} Reassembled(data: bv8)
    ensures (data & 7) | (((data >> 3) & 7) << 3) | (data & 0xC0) == data
    ensures (data >> 3) & 7 <= 7
  {
  }

  /** How an arriving epoch stands to the one held. */
  function CompareEpoch(have: nat, seen: nat): (r: EpochOrder) {
    var forward := (seen - have) % 8;
    if forward == 0 then Current else if forward < 4 then Newer else Stale
  }

  /** With generations counted without bound: exactly which gaps the three-bit
      comparison reads right, among them every gap from four back to three ahead. */
  lemma {:induction false} CompareEpochExact(held: nat, arriving: nat)
    ensures var order := CompareEpoch(held % 8, arriving % 8);
      (order == if arriving == held then Current else if arriving > held then Newer else Stale)
      <==> (arriving == held || (arriving > held && 0 < (arriving - held) % 8 < 4)
            || (arriving < held && 0 < (held - arriving) % 8 <= 4))
    ensures -4 <= arriving - held <= 3 ==>
      CompareEpoch(held % 8, arriving % 8) == if arriving == held then Current else if arriving > held then Newer else Stale
  {
    ForwardGap(held, arriving);
    if arriving < held {
      BackwardGap(held - arriving);
      assert arriving - held == -(held - arriving);
    }
  }

  lemma {:induction false} ForwardGap(held: nat, arriving: nat)
    ensures (arriving % 8 - held % 8) % 8 == (arriving - held) % 8
  {
    var q, r := arriving / 8 - held / 8, arriving % 8 - held % 8;
    assert arriving - held == 8 * q + r;
  }

  lemma {:induction false} BackwardGap(gap: int)
    ensures (-gap) % 8 == if gap % 8 == 0 then 0 else 8 - gap % 8
  {
  }
}
