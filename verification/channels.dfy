/** Channel handles and bus speeds shared by the three window variants. */
module Channels {

  /** The PnP device id string of an adapter. */
  type DeviceId = string

  /** A PCAN-USB channel handle, PCAN_USBBUSn; the numeric driver values are
      abstracted to the bus number n (1..16 for the handles the code names). */
  datatype Handle = UsbBus(n: int)

  const SlotCount: nat := 16

  /** PCAN_USBBUS1 .. PCAN_USBBUS16, in the order the code lists them. */
  const Slots: seq<Handle> := [
    UsbBus(1), UsbBus(2), UsbBus(3), UsbBus(4), UsbBus(5), UsbBus(6), UsbBus(7), UsbBus(8),
    UsbBus(9), UsbBus(10), UsbBus(11), UsbBus(12), UsbBus(13), UsbBus(14), UsbBus(15), UsbBus(16)
  ]

  /** Entry `k` of the handle list, PCAN_USBBUS(k+1). */
  function Slot(k: nat): (h: Handle)
    requires k < SlotCount
    ensures h.n == k + 1 && IsSlot(h)
  {
    UsbBus(k + 1)
  }

  predicate IsSlot(h: Handle)
  {
    1 <= h.n <= SlotCount
  }

  /** The slot list is the sixteen handles in ascending order, each once. */
  lemma SlotsOrderedAndDistinct()
    ensures |Slots| == SlotCount
    ensures forall i :: 0 <= i < |Slots| ==> Slots[i] == UsbBus(i + 1) == Slot(i)
    ensures forall i, j :: 0 <= i < j < |Slots| ==> Slots[i].n < Slots[j].n
    ensures forall h :: h in Slots <==> IsSlot(h)
  {
    forall h | IsSlot(h)
      ensures h in Slots
    {
      assert Slots[h.n - 1] == h;
    }
  }

  /** Bus speeds offered by `LoadBaudrates`. */
  datatype Baud = Baud1M | Baud500K | Baud250K | Baud125K | Baud100K | Baud50K | Baud20K | Baud10K | Baud5K

  /** The baud-rate list in display order and the index selected at start-up. */
  const BaudChoices: seq<Baud> := [Baud1M, Baud500K, Baud250K, Baud125K, Baud100K, Baud50K, Baud20K, Baud10K, Baud5K]
  const DefaultBaudIndex: nat := 1

  /** `LoadBaudrates`: the baud rate selected when the window opens. */
  function DefaultBaud(): (b: Baud)
    ensures b == Baud500K
    ensures b in BaudChoices
  {
    BaudChoices[DefaultBaudIndex]
  }

  /** Every bus speed is offered exactly once. */
  lemma BaudChoicesComplete(b: Baud)
    ensures b in BaudChoices
    ensures forall i, j :: 0 <= i < j < |BaudChoices| ==> BaudChoices[i] != BaudChoices[j]
  {
  }
}
