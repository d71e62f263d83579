/** The alert dispatcher: a flag `sound` that keeps a second playback from being
    started while one is already flagged, and a count of the playbacks started
    (each stands for one background thread that plays the alarm sound). */
module Alerting {

  /** The observable state of an `Alert` object. */
  datatype AlertState = AlertState(sound: bool, playbacks: nat)

  /** What `alert()` does to the state: a playback is started exactly when the
      flag was off, and the flag is on afterwards. */
  function Triggered(a: AlertState): (r: AlertState)
    ensures r.sound
    ensures r.playbacks == if a.sound then a.playbacks else a.playbacks + 1
  {
    if a.sound then a else AlertState(true, a.playbacks + 1)
  }

  /** What `reset()` does to the state: the flag is off, no playback is touched. */
  function Cleared(a: AlertState): (r: AlertState)
    ensures !r.sound && r.playbacks == a.playbacks
  {
    a.(sound := false)
  }

  /** Triggering an alert that is already flagged starts nothing and changes nothing. */
  lemma TriggerIdempotent(a: AlertState)
    ensures Triggered(Triggered(a)) == Triggered(a)
    ensures a.sound ==> Triggered(a) == a
  {
  }

  /** After a reset the next trigger starts a fresh playback. */
  lemma ResetRearms(a: AlertState)
    ensures Triggered(Cleared(a)).playbacks == a.playbacks + 1
    ensures Triggered(Cleared(Triggered(a))).playbacks == Triggered(a).playbacks + 1
  {
  }

  class Alert {
    var sound: bool
    var playbacks: nat

    ghost function Model(): AlertState
      reads this
    {
      AlertState(sound, playbacks)
    }

    /** A new alert is not flagged and has started nothing. */
    constructor ()
      ensures Model() == AlertState(false, 0)
    {
      sound := false;
      playbacks := 0;
    }

    /** The source's `alert()`: starts a playback unless one is already
        flagged; the flag is on afterwards. */
    method Trigger()
      modifies this
      ensures Model() == Triggered(old(Model()))
    {
      if !sound {
        sound := true;
        playbacks := playbacks + 1;
      }
    }

    /** Turns the flag off so that the next `Trigger` starts a playback again. */
    method Reset()
      modifies this
      ensures Model() == Cleared(old(Model()))
    {
      sound := false;
    }
  }
}
