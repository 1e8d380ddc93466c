/** The PCAN-Basic message record (TPCANMsg) as the autoresponder sees it. */
module CanFrame {

  type Byte = bv8

  /** An unsigned byte used as a number rather than as bits. */
  newtype UInt8 = x: int | 0 <= x < 0x100

  /** Eight data bytes: the size of every payload the responder writes. */
  type Payload = s: seq<Byte> | |s| == 8 witness [0, 0, 0, 0, 0, 0, 0, 0]

  /** Frame-type flag values of the PCAN-Basic API (TPCANMessageType). */
  const MessageStandard: Byte := 0x00
  const MessageExtended: Byte := 0x02

  /** A CAN message: 32-bit identifier, the MSGTYPE flag byte, the LEN byte
      and the data bytes. */
  datatype Msg = Msg(id: bv32, msgType: Byte, len: UInt8, data: seq<Byte>)

  /** `(byte)data.Length`: the length truncated to one byte. */
  function LenByte(n: nat): (b: UInt8)
    ensures b as int == n % 0x100
    ensures n < 0x100 ==> b as int == n
  {
    (n % 0x100) as UInt8
  }

  /** The extended-frame flag of a MSGTYPE byte. */
  predicate IsExtended(msgType: Byte)
  {
    msgType & MessageExtended == MessageExtended
  }

  /** The frame type written out: EXTENDED when the inbound type carries the
      extended bit, STANDARD otherwise; every other flag bit is dropped. */
  function NormaliseType(msgType: Byte): (t: Byte)
    ensures t == MessageExtended || t == MessageStandard
    ensures t == MessageExtended <==> msgType & 0x02 == 0x02
    // Spelled out as a bit fact: no flag bit other than the extended bit
    // reaches the written frame.
    ensures t & 0xFD == 0
  {
    if IsExtended(msgType) then MessageExtended else MessageStandard
  }

  /** Normalising an already normalised type changes nothing. */
  lemma NormaliseTypeIdempotent(msgType: Byte)
    ensures NormaliseType(NormaliseType(msgType)) == NormaliseType(msgType)
  {
  }
}
