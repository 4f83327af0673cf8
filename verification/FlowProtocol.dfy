/** One association end to end, for the modes that keep sent bodies: a sender, a
    receiver, and a network that loses, duplicates, reorders and delays both data
    and acknowledgements. A packet stays in the network after it is delivered,
    so it may arrive again or never. */
module FlowProtocol {
  import opened FlowTypes
  import opened Sender
  import R = Receiver

  datatype Packet = Packet(num: nat, body: Body)
  datatype AckPacket = AckPacket(recvNext: nat, ranges: seq<AckRange>)

  /** accepted, stamped and delivered record history: what the send gate took,
      what got a sequence (body of sequence n at index n - 1), and what reached
      the application. resends are (sequence, slot) pairs the retransmit scan
      collected and has not put on the wire yet. */
  datatype Sys = Sys(
    snd: OutState,
    rcv: R.InState,
    data: set<Packet>,
    acks: set<AckPacket>,
    resends: set<(nat, nat)>,
    accepted: seq<Body>,
    stamped: seq<Body>,
    delivered: seq<Packet>)

  datatype Step =
    | Send(body: Body, slot: nat, wireSize: nat, gate: bool, flying: bool, now: nat, epoch: nat)
    | Drain(gate: bool, now: nat, epoch: nat)
    | Collect(index: nat, now: nat)
    | Resend(num: nat, slot: nat)
    | Refund(num: nat)
    | Arrive(packet: Packet, room: bool)
    | BuildAck(ack: AckPacket)
    | ApplyAckStep(ack: AckPacket, now: nat, lossDelay: nat)
    | Reclaim
    | FailAssoc
    | Lose(data: set<Packet>, acks: set<AckPacket>)

  function Init(mode: FlowMode, waitingCap: nat, staging: map<nat, StagedPacket>): (r: Sys) {
    Sys(FreshOut(mode, waitingCap, staging), R.Fresh(mode), {}, {}, {}, [], [], [])
  }

  ghost predicate Next(s: Sys, step: Step, t: Sys)
    requires Shape(s.snd) && R.Shape(s.rcv)
  {
    match step
    case Send(body, slot, wireSize, gate, flying, now, epoch) => SendStep(s, step, t)
    case Drain(gate, now, epoch) => DrainStep(s, step, t)
    case Collect(i, now) =>
      && s.snd.life == Open && i < |s.snd.ring|
      && s.snd.ring[i].num != 0 && s.snd.ring[i].slot != INVALID
      && t == s.(snd := s.snd.(ring := s.snd.ring[i := ResendEntry(s.snd.ring[i], now)]),
                 resends := s.resends + {(s.snd.ring[i].num, s.snd.ring[i].slot)})
    case Resend(num, slot) =>
      && (num, slot) in s.resends
      && (if ResendStillValid(s.snd, num, slot)
          then t == s.(resends := s.resends - {(num, slot)},
                       data := s.data + {Packet(s.snd.staging[slot].num, s.snd.staging[slot].body)})
          else t == s.(resends := s.resends - {(num, slot)}))
    case Refund(num) =>
      var i := num % |s.snd.ring|;
      && num != 0
      && t == s.(snd := s.snd.(ring := s.snd.ring[i := RefundEntry(s.snd.ring[i], num)]))
    case Arrive(p, room) =>
      && p in s.data
      && var d := R.Deliver(s.rcv, p.num, p.body, room);
         t == s.(rcv := d.st, delivered := s.delivered + Numbered(p, d.out))
    case BuildAck(a) =>
      && a.recvNext == s.rcv.recvNext
      && R.IsAckRanges(s.rcv.seen, s.rcv.recvHighest, a.ranges, FLOW_ACK_RANGE_COUNT)
      && t == s.(acks := s.acks + {a},
                 rcv := s.rcv.(newSinceFlush := 0, ackImmediate := false))
    case ApplyAckStep(a, now, lossDelay) =>
      && a in s.acks
      && t == s.(snd := ApplyAck(s.snd, a.recvNext, a.ranges, now, lossDelay))
    case Reclaim =>
      t == s.(rcv := R.ArmAck(R.DropHoldback(s.rcv)))
    case FailAssoc =>
      t == s.(snd := Fail(s.snd))
    case Lose(data, acks) =>
      && data <= s.data && acks <= s.acks
      && t == s.(data := data, acks := acks)
  }

  /** The sequence each delivered body carried: an unordered flow delivers the
      arriving packet, an ordered flow the run that starts at the cursor. */
  function Numbered(p: Packet, out: seq<Body>): (r: seq<Packet>) {
    seq(|out|, k requires 0 <= k < |out| => Packet(p.num + k, out[k]))
  }

  /** The application sends: the body is staged in a fresh slot, then offered to
      the gate. A refused body gives its slot back. */
  ghost predicate SendStep(s: Sys, step: Step, t: Sys)
    requires Shape(s.snd) && step.Send?
  {
    && step.slot != INVALID && step.slot !in s.snd.staging
    && s.snd.nextSeq < SEQ_LIMIT
    && var staged := s.snd.(staging := s.snd.staging[step.slot := StagedPacket(0, step.body)]);
       var a := Admit(staged, step.gate, step.now, step.flying, step.slot, step.wireSize, step.epoch);
       match a.verdict
       case Sent =>
         t == s.(snd := a.st, accepted := s.accepted + [step.body], stamped := s.stamped + [step.body],
                 data := if step.flying then s.data + {Packet(s.snd.nextSeq, step.body)} else s.data)
       case Queued =>
         t == s.(snd := a.st, accepted := s.accepted + [step.body])
       case _ => t == s
  }

  /** The waiting ring's head is claimed when the gate opens. */
  ghost predicate DrainStep(s: Sys, step: Step, t: Sys)
    requires Shape(s.snd) && step.Drain?
  {
    && s.snd.life == Open && |s.snd.waiting| > 0 && RingAdmits(s.snd) && step.gate
    && s.snd.nextSeq < SEQ_LIMIT
    && var slot := s.snd.waiting[0].slot;
       && slot in s.snd.staging
       && var body := s.snd.staging[slot].body;
          t == s.(snd := Claim(s.snd, step.now, step.epoch), stamped := s.stamped + [body],
                  data := s.data + {Packet(s.snd.nextSeq, body)})
  }

  predicate ResendStillValid(o: OutState, num: nat, slot: nat)
    requires Shape(o)
  {
    && o.life == Open && slot in o.staging
    && o.ring[num % |o.ring|].num == num && o.ring[num % |o.ring|].slot == slot
  }

  /** A run: states linked by steps from the initial state of its mode. */
  ghost predicate IsRun(mode: FlowMode, states: seq<Sys>, steps: seq<Step>) {
    && mode != Unreliable
    && |states| == |steps| + 1
    && (exists cap: nat, pool: map<nat, StagedPacket> :: INVALID !in pool && states[0] == Init(mode, cap, pool))
    && forall k :: 0 <= k < |steps| ==> Linked(states[k], steps[k], states[k + 1])
  }

  /** Runs start with rings of their sizes, and the proofs show that they stay so. */
  ghost predicate Linked(s: Sys, step: Step, t: Sys) {
    Shape(s.snd) && R.Shape(s.rcv) ==> Next(s, step, t)
  }
}
