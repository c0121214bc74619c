/** The sending half of the message transceiver, in place on its array of
    slots. It refines `MessageSlots`. */
module Transceivers {
  import opened Domain
  import opened MessageSlots

  class MsgTransceiver {
    const slots: array<Slot>
    var initialized: bool
    ghost var traffic: Traffic

    ghost predicate Valid()
      reads this, slots
      ensures Valid() ==> |traffic.slots| == slots.Length && traffic.initialized == initialized
    {
      traffic.slots == slots[..] && traffic.initialized == initialized
    }

    constructor (numSlots: nat)
      ensures Valid() && fresh(slots) && traffic == Initially(numSlots)
    {
      slots := new Slot[numSlots](_ => VACANT);
      initialized := false;
      traffic := Initially(numSlots);
    }

    method ResetMessageSlots()
      modifies slots
      ensures slots[..] == AllVacant(old(slots[..]))
    {
      for i := 0 to slots.Length
        invariant forall j | 0 <= j < i :: slots[j] == VACANT
      {
        slots[i] := VACANT;
      }
    }

    method FindEmptyMessageSlot() returns (i: nat)
      ensures i == FirstVacant(slots[..])
    {
      i := 0;
      while i < slots.Length
        invariant i <= slots.Length
        invariant forall j | 0 <= j < i :: slots[j].isOccupied
      {
        if !slots[i].isOccupied { break; }
        i := i + 1;
      }
      var first := FirstVacant(slots[..]);
      assert first < |slots[..]| ==> !slots[..][first].isOccupied;
      assert i < |slots[..]| ==> !slots[..][i].isOccupied;
    }

    method Init()
      requires Valid() && !initialized
      modifies this, slots
      ensures Valid() && traffic == Step(old(traffic), MessageSlots.Init)
    {
      traffic := Step(traffic, MessageSlots.Init);
      ResetMessageSlots();
      initialized := true;
    }

    method Deinit()
      requires Valid()
      modifies this, slots
      ensures Valid() && traffic == Step(old(traffic), MessageSlots.Deinit)
    {
      traffic := Step(traffic, MessageSlots.Deinit);
      if !initialized { return; }
      ResetMessageSlots();
      initialized := false;
    }

    method SendAlertStatusChangeMessage(alertId: byte, raised: bool, cb: Option<nat>, userData: int)
      requires Valid() && initialized
      modifies this, slots
      ensures Valid() && initialized
      ensures traffic == Step(old(traffic), Send(Message(alertId, raised, cb, userData)))
      ensures traffic.sent == old(traffic).sent + [Message(alertId, raised, cb, userData)]
      ensures traffic.calls == old(traffic).calls +
                if forall i | 0 <= i < slots.Length :: old(slots[..])[i].isOccupied
                then [Call(|old(traffic).sent|, cb, userData, false)] else []
    {
      var i := FindEmptyMessageSlot();
      traffic := Step(traffic, Send(Message(alertId, raised, cb, userData)));
      if i < slots.Length {
        slots[i] := Slot(true, cb, userData);
      }
    }

    /** The network reports on the message of a slot. A report on a slot that
        is vacant is ignored, any other one is on the message that holds it. */
    method TransmitComplete(slot: nat, result: bool)
      requires Valid() && Tracked(traffic) && slot < slots.Length
      modifies this, slots
      ensures Valid() && Tracked(traffic) && initialized == old(initialized)
      ensures if !old(traffic.slots[slot]).isOccupied then traffic == old(traffic)
              else exists ticket: nat ::
                && GivenSlot(old(traffic), ticket, slot) && traffic == Step(old(traffic), Complete(ticket, result))
                && traffic.calls == old(traffic).calls +
                   [Call(ticket, old(slots[slot]).cb, old(slots[slot]).userData, result)]
    {
      if !slots[slot].isOccupied { return; }
      ghost var ticket: nat :| GivenSlot(traffic, ticket, slot);
      CompleteKeeps(traffic, ticket, result);
      traffic := Step(traffic, Complete(ticket, result));
      slots[slot] := slots[slot].(isOccupied := false);
    }
  }
}
