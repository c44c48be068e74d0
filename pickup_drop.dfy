/** The two-step pickup and drop chooser (client/src/components/PickupDropModal.tsx):
    a pickup point first, then a drop point, then the pair is handed to the
    caller and the chooser starts over. */
module PickupDrop {
  import opened Common

  datatype Step = PickupStep | DropStep

  /** The chooser's state. */
  class Wizard {
    var step: Step
    var pickup: string
    var drop: string

    /** The drop step is only reached with a pickup chosen. */
    ghost predicate Valid()
      reads this
    {
      step == DropStep ==> pickup != ""
    }

    constructor ()
      ensures Valid() && step == PickupStep && pickup == "" && drop == ""
    {
      step, pickup, drop := PickupStep, "", "";
    }

    /** The pickup radio group, shown on the pickup step only. */
    method ChoosePickup(id: string)
      requires Valid() && step == PickupStep
      modifies this
      ensures Valid() && step == PickupStep && pickup == id && drop == old(drop)
    {
      pickup := id;
    }

    /** The drop radio group, shown on the drop step only. */
    method ChooseDrop(id: string)
      requires Valid() && step == DropStep
      modifies this
      ensures Valid() && step == DropStep && pickup == old(pickup) && drop == id
    {
      drop := id;
    }

    /** `handleNext`: on to the drop step once a pickup is chosen; on the drop
        step with a drop chosen, `onConfirm(pickup, drop)` and a fresh start.
        The call made, if any, is returned. */
    method Next() returns (confirmed: Option<(string, string)>)
      requires Valid()
      modifies this
      ensures Valid()
      ensures old(step) == PickupStep && old(pickup) != "" ==>
                step == DropStep && pickup == old(pickup) && drop == old(drop) && confirmed.None?
      ensures old(step) == DropStep && old(drop) != "" ==>
                confirmed == Some((old(pickup), old(drop))) && step == PickupStep && pickup == "" && drop == ""
      ensures (old(step) == PickupStep && old(pickup) == "") || (old(step) == DropStep && old(drop) == "") ==>
                step == old(step) && pickup == old(pickup) && drop == old(drop) && confirmed.None?
      ensures confirmed.Some? ==> confirmed.value.0 != "" && confirmed.value.1 != ""
    {
      confirmed := None;
      if step == PickupStep && pickup != "" {
        step := DropStep;
      } else if step == DropStep && drop != "" {
        confirmed := Some((pickup, drop));
        step, pickup, drop := PickupStep, "", "";
      }
    }

    /** `handleBack`: from the drop step back to the pickup step, keeping
        both choices. */
    method Back()
      requires Valid()
      modifies this
      ensures Valid() && step == PickupStep && pickup == old(pickup) && drop == old(drop)
    {
      if step == DropStep {
        step := PickupStep;
      }
    }

    /** `handleClose`: always a fresh start (then `onClose`). */
    method Close()
      requires Valid()
      modifies this
      ensures Valid() && step == PickupStep && pickup == "" && drop == ""
    {
      step, pickup, drop := PickupStep, "", "";
    }
  }

  /** A whole pass through the chooser confirms exactly the pair chosen. */
  method ChoosePair(w: Wizard, p: string, d: string) returns (confirmed: Option<(string, string)>)
    requires w.Valid() && w.step == PickupStep && p != "" && d != ""
    modifies w
    ensures confirmed == Some((p, d))
    ensures w.Valid() && w.step == PickupStep && w.pickup == "" && w.drop == ""
  {
    w.ChoosePickup(p);
    var none := w.Next();
    w.ChooseDrop(d);
    confirmed := w.Next();
  }
}
