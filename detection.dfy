/** The detector object: the consecutive-low counter and the status label it
    owns, with the alert and the event logger it drives. */
module Detection {
  import opened Alerting
  import opened EventLog
  import opened Drowsiness

  class Detector {
    var count: nat
    var status: Label
    const alert: Alert
    const manager: Manager

    /** The detector's whole state as one value. */
    ghost function Abs(): State
      reads this, alert, manager
    {
      State(count, alert.Model(), status, manager.rows)
    }

    ghost predicate Valid()
      reads this, alert, manager
    {
      Inv(Abs())
    }

    /** A new detector has a zero counter, an unflagged alert, the label
        "Monitoring", and the rows the table already held. */
    constructor (existing: seq<string>)
      ensures Valid()
      ensures Abs() == Initial(existing)
      ensures fresh(alert) && fresh(manager)
    {
      alert := new Alert();
      manager := new Manager(existing);
      count := 0;
      status := Monitoring;
      new;
      InvInitial(existing);
    }

    /** The rule applied to one detected face with eye aspect ratio `ear`. */
    method Step(ear: real)
      requires Valid()
      modifies this, alert, manager
      ensures Valid()
      ensures Abs() == Next(old(Abs()), ear)
    {
      if ear < EarThresh {
        count := count + 1;
        if count > EarFrames {
          status := Drowsy;
          alert.Trigger();
          manager.SaveEvent(DrowsyRow);
        }
      } else {
        count := 0;
        status := Awake;
        alert.Reset();
      }
      InvPreserved(old(Abs()), ear);
    }

    /** One frame: the rule runs once per detected face, in order; a frame
        with no face leaves everything as it was. */
    method Detect(faces: seq<real>)
      requires Valid()
      modifies this, alert, manager
      ensures Valid()
      ensures Abs() == NextAll(old(Abs()), faces)
      ensures faces == [] ==> Abs() == old(Abs())
    {
      for i := 0 to |faces|
        invariant Valid()
        invariant Abs() == NextAll(old(Abs()), faces[..i])
      {
        Step(faces[i]);
        NextAllSnoc(old(Abs()), faces[..i], faces[i]);
        assert faces[..i + 1] == faces[..i] + [faces[i]];
      }
      assert faces[..|faces|] == faces;
    }

    /** The monitoring loop over the frames read until it stops: the state
        afterwards is that of running every face of every frame in order. */
    method Monitor(frames: seq<seq<real>>)
      requires Valid()
      modifies this, alert, manager
      ensures Valid()
      ensures Abs() == NextAll(old(Abs()), Flatten(frames))
    {
      for i := 0 to |frames|
        invariant Valid()
        invariant Abs() == NextAll(old(Abs()), Flatten(frames[..i]))
      {
        Detect(frames[i]);
        NextAllAppend(old(Abs()), Flatten(frames[..i]), frames[i]);
        FlattenSnoc(frames[..i], frames[i]);
        assert frames[..i + 1] == frames[..i] + [frames[i]];
      }
      assert frames[..|frames|] == frames;
    }
  }
}
