/** The autoresponder of the monitor loop and the write-time transforms of
    `SendCanMessage`.  The three window variants of the application carry the
    same text (MainForm.cs:278-353, Program.cs:229-316, program.cs:192-233), so
    it is modelled once here. */
module Responder {
  import opened CanFrame

  /** The inbound identifier that triggers the scripted burst. */
  const TriggerId: bv32 := 0x04904000

  /** The address rewrite: ids whose masked bits equal the pattern get the
      fixed base with their middle byte moved to the low byte. */
  const RewriteMask: bv32 := 0x1FFF00FF
  const RewritePattern: bv32 := 0x18A200F6
  const RewriteBase: bv32 := 0x18B0F600

  /** The "18A2xxF6" family, field by field: low byte 0xF6 and bits 16..28
      equal to 0x18A2; bits 8..15 and 29..31 are free. */
  predicate InRewriteFamily(id: bv32)
  {
    id & 0xFF == 0xF6 && (id >> 16) & 0x1FFF == 0x18A2
  }

  /** Bits 8..15 of an identifier. */
  function MiddleByte(id: bv32): bv32
  {
    (id >> 8) & 0xFF
  }

  /** The id rewrite applied by `SendCanMessage` before every write. */
  function RewriteId(id: bv32): (r: bv32)
    ensures InRewriteFamily(id) ==> r & 0xFFFF_FF00 == RewriteBase && r & 0xFF == MiddleByte(id)
    ensures !InRewriteFamily(id) ==> r == id
    ensures r == id <==> !InRewriteFamily(id)
  {
    if id & RewriteMask == RewritePattern then ((id & 0x0000FF00) >> 8) | RewriteBase else id
  }

  /** The mask test of the source is exactly membership of the family; in
      particular bits 29..31 never influence it. */
  lemma MaskTestIsFamily(id: bv32)
    ensures id & RewriteMask == RewritePattern <==> InRewriteFamily(id)
    ensures InRewriteFamily(id) <==> InRewriteFamily(id & 0x1FFF_FFFF)
  {
  }

  /** A rewritten id (0x18B0F6xx) is outside the family, so rewriting twice is
      rewriting once. */
  lemma RewriteIdIdempotent(id: bv32)
    ensures RewriteId(RewriteId(id)) == RewriteId(id)
    ensures !InRewriteFamily(RewriteId(id))
  {
  }

  /** Concrete values of the rewrite as the code computes them. */
  lemma RewriteIdExamples()
    ensures RewriteId(0x18A200F6) == 0x18B0F600
    ensures RewriteId(0x18A2ABF6) == 0x18B0F6AB
    ensures RewriteId(0x38A2ABF6) == 0x18B0F6AB
    ensures RewriteId(0x18A2FF00) == 0x18A2FF00
    ensures RewriteId(0x18A100F6) == 0x18A100F6
    ensures RewriteId(TriggerId) == TriggerId
  {
  }

  /** The arguments of one `SendCanMessage` call: identifier and data bytes. */
  datatype Request = Request(id: bv32, data: Payload)

  /** The scripted burst answering the trigger id, in call order. */
  const TriggerBurst: seq<Request> := [
    Request(0x18008040, [0x01, 0x40, 0x41, 0x4A, 0x0D, 0x17, 0xFF, 0xC0]),
    Request(0x18018040, [0x0A, 0x00, 0xFF, 0x00, 0x00, 0x00, 0x00, 0x00]),
    Request(0x18068040, [0x00, 0x00, 0x00, 0x00, 0x00, 0x00, 0x00, 0x00]),
    Request(0x18078040, [0x00, 0x00, 0x00, 0x00, 0x00, 0x00, 0x00, 0x00]),
    Request(0x18088040, [0x00, 0x00, 0x00, 0x00, 0x00, 0x00, 0x00, 0x00])
  ]

  /** The message `SendCanMessage` hands to the driver: rewritten id, LEN from
      the data length, the data itself and the normalised frame type. */
  function SendCanMessage(req: Request, msgType: Byte): (m: Msg)
    ensures m.len == 8 && m.len as int == |m.data|
    ensures m.data == req.data
    ensures m.msgType == MessageExtended <==> IsExtended(msgType)
    ensures m.msgType == MessageStandard <==> !IsExtended(msgType)
    ensures m.id == req.id <==> !InRewriteFamily(req.id)
    ensures InRewriteFamily(req.id) ==> m.id & 0xFFFF_FF00 == RewriteBase && m.id & 0xFF == MiddleByte(req.id)
    ensures RewriteId(m.id) == m.id
  {
    Msg(RewriteId(req.id), NormaliseType(msgType), LenByte(|req.data|), req.data)
  }

  /** The `SendCanMessage` calls made for one received frame; `random` stands
      for the eight bytes `Random.NextBytes` draws in the default branch. */
  function Requests(inbound: Msg, random: Payload): (q: seq<Request>)
    ensures inbound.id == TriggerId ==> |q| == 5
    ensures inbound.id == TriggerId ==>
      && q[0] == Request(0x18008040, [0x01, 0x40, 0x41, 0x4A, 0x0D, 0x17, 0xFF, 0xC0])
      && q[1] == Request(0x18018040, [0x0A, 0x00, 0xFF, 0x00, 0x00, 0x00, 0x00, 0x00])
      && q[2] == Request(0x18068040, [0x00, 0x00, 0x00, 0x00, 0x00, 0x00, 0x00, 0x00])
      && q[3] == Request(0x18078040, [0x00, 0x00, 0x00, 0x00, 0x00, 0x00, 0x00, 0x00])
      && q[4] == Request(0x18088040, [0x00, 0x00, 0x00, 0x00, 0x00, 0x00, 0x00, 0x00])
    ensures inbound.id != TriggerId ==> q == [Request(inbound.id, random)]
  {
    if inbound.id == TriggerId then TriggerBurst else [Request(inbound.id, random)]
  }

  /** The messages written for one received frame, in write order. */
  function Respond(inbound: Msg, random: Payload): (r: seq<Msg>)
    ensures inbound.id == TriggerId ==> |r| == 5
    ensures inbound.id == TriggerId ==>
      var t := NormaliseType(inbound.msgType);
      && r[0] == Msg(0x18008040, t, 8, [0x01, 0x40, 0x41, 0x4A, 0x0D, 0x17, 0xFF, 0xC0])
      && r[1] == Msg(0x18018040, t, 8, [0x0A, 0x00, 0xFF, 0x00, 0x00, 0x00, 0x00, 0x00])
      && r[2] == Msg(0x18068040, t, 8, [0x00, 0x00, 0x00, 0x00, 0x00, 0x00, 0x00, 0x00])
      && r[3] == Msg(0x18078040, t, 8, [0x00, 0x00, 0x00, 0x00, 0x00, 0x00, 0x00, 0x00])
      && r[4] == Msg(0x18088040, t, 8, [0x00, 0x00, 0x00, 0x00, 0x00, 0x00, 0x00, 0x00])
    ensures inbound.id != TriggerId ==> |r| == 1 && r[0].id == RewriteId(inbound.id) && r[0].data == random
    ensures forall i :: 0 <= i < |r| ==> WellFormedOutbound(r[i], inbound.msgType)
  {
    var q := Requests(inbound, random);
    seq(|q|, i requires 0 <= i < |q| => SendCanMessage(q[i], inbound.msgType))
  }

  /** What every written message satisfies: eight data bytes with a matching
      LEN, the frame type derived from the inbound type, and an id the
      rewrite leaves alone. */
  predicate WellFormedOutbound(m: Msg, inboundType: Byte)
  {
    && m.len == 8
    && |m.data| == 8
    && m.msgType == NormaliseType(inboundType)
    && RewriteId(m.id) == m.id
  }

  /** The reply does not depend on the inbound data or length, and of the
      inbound type only the extended bit matters. */
  lemma RespondIgnoresInboundPayload(a: Msg, b: Msg, random: Payload)
    requires a.id == b.id
    requires IsExtended(a.msgType) == IsExtended(b.msgType)
    ensures Respond(a, random) == Respond(b, random)
  {
    assert NormaliseType(a.msgType) == NormaliseType(b.msgType);
  }

  /** The trigger burst is answered with exactly the scripted ids: none of
      them is touched by the rewrite, and the burst does not use the random
      bytes. */
  lemma TriggerBurstUnchangedByRewrite(inbound: Msg, r1: Payload, r2: Payload)
    requires inbound.id == TriggerId
    ensures forall i :: 0 <= i < 5 ==> Respond(inbound, r1)[i].id == TriggerBurst[i].id
    ensures Respond(inbound, r1) == Respond(inbound, r2)
  {
  }
}
