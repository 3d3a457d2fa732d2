/**
 * The click-versus-drag recogniser of setUpMouse: each press is remembered in
 * its button's slot; a release consumes the slot and is a click when it comes
 * soon enough and close enough to the press.
 */
module Clicks {
  import opened MapTypes

  /** The fields of a java.awt.event.MouseEvent the recogniser reads. */
  datatype MouseEvent = MouseEvent(button: nat, when: int, x: int, y: int)

  /** The release test of mouseReleased: quicker than the multi-click interval and within Margin on both axes. */
  predicate IsClick(press: MouseEvent, release: MouseEvent, multiClickInterval: int)
  {
    && release.when - press.when < multiClickInterval
    && press.x - Margin <= release.x && release.x <= press.x + Margin
    && press.y - Margin <= release.y && release.y <= press.y + Margin
  }

  function Abs(v: int): nat
  {
    if v < 0 then -v else v
  }

  /** The same test read as a distance: the release lies in the closed square of half-side Margin around the press. */
  lemma IsClickByDistance(press: MouseEvent, release: MouseEvent, multiClickInterval: int)
    ensures IsClick(press, release, multiClickInterval)
        <==> release.when - press.when < multiClickInterval
             && Abs(release.x - press.x) <= Margin && Abs(release.y - press.y) <= Margin
  {
  }

  /** mouse_events: one slot per button, holding the pending press or nothing. */
  class MouseSlots {
    var events: array<Option<MouseEvent>>

    /** setUpMouse allocates one slot per button plus one (buttons are numbered from 1), all empty. */
    constructor (numberOfButtons: nat)
      ensures events.Length == numberOfButtons + 1
      ensures forall b :: 0 <= b < events.Length ==> events[b] == None
      ensures fresh(events)
    {
      events := new Option<MouseEvent>[numberOfButtons + 1](_ => None);
    }

    /** mousePressed: the press replaces whatever its button's slot held. */
    method MousePressed(e: MouseEvent)
      requires e.button < events.Length
      modifies events
      ensures events[e.button] == Some(e)
      ensures forall b :: 0 <= b < events.Length && b != e.button ==> events[b] == old(events[b])
    {
      events[e.button] := Some(e);
    }

    /**
     * mouseReleased: without a pending press nothing happens; otherwise the
     * slot is emptied whatever the outcome, and the press is forwarded as a
     * click exactly when IsClick holds.
     */
    method MouseReleased(e: MouseEvent, multiClickInterval: int) returns (click: Option<MouseEvent>)
      requires e.button < events.Length
      modifies events
      ensures old(events[e.button]).None? ==> click.None? && events[e.button] == None
      ensures old(events[e.button]).Some? ==>
        && events[e.button] == None
        && click == (if IsClick(old(events[e.button]).value, e, multiClickInterval)
                     then old(events[e.button]) else None)
      ensures forall b :: 0 <= b < events.Length && b != e.button ==> events[b] == old(events[b])
    {
      var button := e.button;
      var press := events[button];
      if press.None? {
        return None;
      }
      events[button] := None;
      var p := press.value;
      var delay := e.when - p.when;
      if delay < multiClickInterval && p.x - Margin <= e.x && e.x <= p.x + Margin
        && p.y - Margin <= e.y && e.y <= p.y + Margin
      {
        click := Some(p);
      } else {
        click := None;
      }
    }
  }

  /** A press followed by a release of the same button is a click exactly when IsClick holds, and leaves the slot empty. */
  method PressThenRelease(slots: MouseSlots, press: MouseEvent, release: MouseEvent, multiClickInterval: int)
    returns (click: Option<MouseEvent>)
    requires press.button == release.button < slots.events.Length
    modifies slots.events
    ensures click == (if IsClick(press, release, multiClickInterval) then Some(press) else None)
    ensures slots.events[press.button] == None
  {
    slots.MousePressed(press);
    click := slots.MouseReleased(release, multiClickInterval);
  }
}
