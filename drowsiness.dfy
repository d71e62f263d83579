/** The per-face drowsiness rule, as a function on the detector's whole state,
    and what it does over a sequence of faces. The `Detection` module's class
    is proved to follow these functions. */
module Drowsiness {
  import opened Alerting

  /** An eye aspect ratio below this counts as closed eyes for one face. */
  const EarThresh: real := 0.28
  /** A run of closed-eye steps must be longer than this before the driver is called drowsy. */
  const EarFrames: nat := 40
  /** The status written to the event log. */
  const DrowsyRow: string := "Drowsy"

  /** The text of the status label: "Monitoring" until the first high face or
      the 41st consecutive low face. */
  datatype Label = Monitoring | Awake | Drowsy

  /** Everything one step reads or writes: the counter of consecutive low steps,
      the alert, the status label and the event log. */
  datatype State = State(count: nat, alert: AlertState, status: Label, log: seq<string>)

  /** The state in which a new detector starts, given the rows already in the table. */
  function Initial(existing: seq<string>): State
  {
    State(0, AlertState(false, 0), Monitoring, existing)
  }

  /** One face with eye aspect ratio `ear`. */
  function Next(s: State, ear: real): State
  {
    if ear < EarThresh then
      var c := s.count + 1;
      if c > EarFrames then State(c, Triggered(s.alert), Drowsy, s.log + [DrowsyRow])
      else s.(count := c)
    else
      State(0, Cleared(s.alert), Awake, s.log)
  }

  /** The faces `ears`, in order. */
  function NextAll(s: State, ears: seq<real>): State
    decreases |ears|
  {
    if ears == [] then s else Next(NextAll(s, ears[..|ears| - 1]), ears[|ears| - 1])
  }

  /** The concatenation of the faces of several frames. */
  function Flatten(frames: seq<seq<real>>): seq<real>
    decreases |frames|
  {
    if frames == [] then [] else Flatten(frames[..|frames| - 1]) + frames[|frames| - 1]
  }

  predicate AllLow(ears: seq<real>)
  {
    forall i :: 0 <= i < |ears| ==> ears[i] < EarThresh
  }

  /** How many of the first `c` consecutive low steps are drowsy steps. */
  function Over(c: nat): nat
  {
    if c > EarFrames then c - EarFrames else 0
  }

  /** `n` "Drowsy" rows. */
  function Rows(n: nat): seq<string>
  {
    seq(n, _ => DrowsyRow)
  }

  /** The length of the run of low values at the end of `ears`. */
  function TrailingLows(ears: seq<real>): nat
    decreases |ears|
  {
    if ears == [] then 0
    else if ears[|ears| - 1] < EarThresh then TrailingLows(ears[..|ears| - 1]) + 1
    else 0
  }

  /** The invariant of every reachable state: the alert is flagged, and the
      status is "Drowsy", exactly when the run of low steps is longer than `EarFrames`. */
  ghost predicate Inv(s: State)
  {
    (s.alert.sound <==> s.count > EarFrames) && (s.status == Drowsy <==> s.count > EarFrames)
  }

  // ---------------------------------------------------------------------------
  // One step

  /** A low step counts one more low face and never clears the alert flag. */
  lemma LowStep(s: State, ear: real)
    requires ear < EarThresh
    ensures Next(s, ear).count == s.count + 1
    ensures s.alert.sound ==> Next(s, ear).alert.sound
    ensures Next(s, ear).status == s.status || Next(s, ear).status == Drowsy
  {
  }

  /** A high step resets the counter, writes "Awake", clears the flag, logs
      nothing, and changes nothing else. */
  lemma HighStep(s: State, ear: real)
    requires ear >= EarThresh
    ensures Next(s, ear).count == 0
    ensures Next(s, ear).status == Awake
    ensures !Next(s, ear).alert.sound
    ensures Next(s, ear).log == s.log
    ensures Next(s, ear).alert.playbacks == s.alert.playbacks
  {
  }

  /** On a low step, the drowsy actions (status "Drowsy", the alert, one "Drowsy"
      row) happen exactly when the incremented counter exceeds `EarFrames`;
      otherwise nothing but the counter changes. */
  lemma DrowsyActionsIff(s: State, ear: real)
    requires ear < EarThresh
    ensures s.count + 1 > EarFrames <==> Next(s, ear).log == s.log + [DrowsyRow]
    ensures s.count + 1 > EarFrames ==>
      Next(s, ear).status == Drowsy && Next(s, ear).alert == Triggered(s.alert)
    ensures s.count + 1 <= EarFrames ==> Next(s, ear) == s.(count := s.count + 1)
  {
  }

  /** A step appends a row exactly when it is a low step past `EarFrames`. */
  lemma RowIffDrowsyStep(s: State, ear: real)
    ensures |Next(s, ear).log| == |s.log| + 1 <==> ear < EarThresh && s.count + 1 > EarFrames
    ensures |Next(s, ear).log| == |s.log| + 1 || Next(s, ear).log == s.log
  {
  }

  /** In a reachable state a playback starts exactly on the 41st consecutive low step. */
  lemma PlaybackOnlyOnEntry(s: State, ear: real)
    requires Inv(s)
    ensures Next(s, ear).alert.playbacks > s.alert.playbacks <==>
      ear < EarThresh && s.count == EarFrames
    ensures Next(s, ear).alert.playbacks <= s.alert.playbacks + 1
  {
  }

  lemma InvInitial(existing: seq<string>)
    ensures Inv(Initial(existing))
  {
  }

  lemma InvPreserved(s: State, ear: real)
    requires Inv(s)
    ensures Inv(Next(s, ear))
  {
  }

  // ---------------------------------------------------------------------------
  // Sequences of steps

  /** Running the faces of `xs` and then those of `ys` is running `xs + ys`. */
  lemma {:induction false} NextAllAppend(s: State, xs: seq<real>, ys: seq<real>)
    ensures NextAll(s, xs + ys) == NextAll(NextAll(s, xs), ys)
    decreases |ys|
  {
    if ys == [] {
      assert xs + ys == xs;
    } else {
      var ys' := ys[..|ys| - 1];
      assert (xs + ys)[..|xs + ys| - 1] == xs + ys';
      assert (xs + ys)[|xs + ys| - 1] == ys[|ys| - 1];
      NextAllAppend(s, xs, ys');
    }
  }

  lemma NextAllSnoc(s: State, xs: seq<real>, x: real)
    ensures NextAll(s, xs + [x]) == Next(NextAll(s, xs), x)
  {
    assert (xs + [x])[..|xs|] == xs;
  }

  lemma {:induction false} FlattenSnoc(frames: seq<seq<real>>, f: seq<real>)
    ensures Flatten(frames + [f]) == Flatten(frames) + f
  {
    assert (frames + [f])[..|frames|] == frames;
  }

  /** Every reachable state satisfies `Inv`. */
  lemma {:induction false} InvPreservedAll(s: State, ears: seq<real>)
    requires Inv(s)
    ensures Inv(NextAll(s, ears))
    decreases |ears|
  {
    if ears != [] {
      InvPreservedAll(s, ears[..|ears| - 1]);
      InvPreserved(NextAll(s, ears[..|ears| - 1]), ears[|ears| - 1]);
    }
  }

  /** The log is append-only: the earlier rows stay, each step adds at most one
      row, and every added row is "Drowsy". */
  lemma {:induction false} LogAppendOnly(s: State, ears: seq<real>)
    ensures |s.log| <= |NextAll(s, ears).log| <= |s.log| + |ears|
    ensures NextAll(s, ears).log[..|s.log|] == s.log
    ensures forall i :: |s.log| <= i < |NextAll(s, ears).log| ==> NextAll(s, ears).log[i] == DrowsyRow
    decreases |ears|
  {
    if ears != [] {
      var p := NextAll(s, ears[..|ears| - 1]);
      LogAppendOnly(s, ears[..|ears| - 1]);
      RowIffDrowsyStep(p, ears[|ears| - 1]);
    }
  }

  /** The counter is the length of the trailing run of low faces, plus the
      starting counter when every face was low. */
  lemma {:induction false} CountIsTrailingLows(s: State, ears: seq<real>)
    ensures NextAll(s, ears).count ==
      if TrailingLows(ears) == |ears| then s.count + |ears| else TrailingLows(ears)
    decreases |ears|
  {
    if ears != [] {
      CountIsTrailingLows(s, ears[..|ears| - 1]);
    }
  }

  /** A run of low faces of any length: the counter grows by its length, one
      "Drowsy" row is logged per step past `EarFrames`, and at most one playback
      starts, none at all when the alert was already flagged. */
  lemma {:induction false} LowRun(s: State, ears: seq<real>)
    requires AllLow(ears)
    ensures NextAll(s, ears).count == s.count + |ears|
    ensures NextAll(s, ears).log == s.log + Rows(Over(s.count + |ears|) - Over(s.count))
    ensures NextAll(s, ears).status ==
      if |ears| > 0 && s.count + |ears| > EarFrames then Drowsy else s.status
    ensures NextAll(s, ears).alert.playbacks ==
      s.alert.playbacks + (if !s.alert.sound && |ears| > 0 && s.count + |ears| > EarFrames then 1 else 0)
    ensures NextAll(s, ears).alert.sound == (s.alert.sound || (|ears| > 0 && s.count + |ears| > EarFrames))
    decreases |ears|
  {
    if ears == [] {
      assert Rows(0) == [];
    } else {
      var n := |ears|;
      var front := ears[..n - 1];
      assert AllLow(front) by {
        forall i | 0 <= i < |front| ensures front[i] < EarThresh {
          assert front[i] == ears[i];
        }
      }
      LowRun(s, front);
      var p := NextAll(s, front);
      assert ears[n - 1] < EarThresh;
      var k := Over(s.count + n - 1) - Over(s.count);
      if s.count + n > EarFrames {
        assert Over(s.count + n) - Over(s.count) == k + 1;
        assert Rows(k) + [DrowsyRow] == Rows(k + 1);
      }
    }
  }

  /** Within a run of low faces, however long, at most one playback starts. */
  lemma AtMostOnePlayback(s: State, ears: seq<real>)
    requires AllLow(ears)
    ensures NextAll(s, ears).alert.playbacks <= s.alert.playbacks + 1
    ensures s.alert.sound ==> NextAll(s, ears).alert.playbacks == s.alert.playbacks
  {
    LowRun(s, ears);
  }

  /** From a zero counter, `n` low faces log exactly max(0, n - 40) rows; the
      first 40 change nothing but the counter, and the 41st is the first drowsy step. */
  lemma FirstDrowsyOnStep41(s: State, ears: seq<real>)
    requires s.count == 0 && AllLow(ears)
    ensures NextAll(s, ears).log == s.log + Rows(if |ears| > EarFrames then |ears| - EarFrames else 0)
    ensures |ears| <= EarFrames ==> NextAll(s, ears) == s.(count := |ears|)
    ensures |ears| == EarFrames + 1 ==>
      NextAll(s, ears).status == Drowsy && NextAll(s, ears).log == s.log + [DrowsyRow]
  {
    LowRun(s, ears);
    if |ears| == EarFrames + 1 {
      assert Rows(1) == [DrowsyRow];
    }
    if |ears| <= EarFrames {
      assert Rows(0) == [];
      var r := NextAll(s, ears);
      assert r.alert == s.alert;
    }
  }

  /** Faces that never form a run of more than `EarFrames` low values, from a
      zero counter, never log a row, never start a playback and never write "Drowsy". */
  lemma {:induction false} QuietRunNeverLogs(s: State, ears: seq<real>)
    requires s.count == 0 && s.status != Drowsy
    requires forall i :: 0 <= i <= |ears| ==> TrailingLows(ears[..i]) <= EarFrames
    ensures NextAll(s, ears).log == s.log
    ensures NextAll(s, ears).alert.playbacks == s.alert.playbacks
    ensures NextAll(s, ears).status != Drowsy
    decreases |ears|
  {
    if ears != [] {
      var n := |ears|;
      var front := ears[..n - 1];
      forall i | 0 <= i <= |front| ensures TrailingLows(front[..i]) <= EarFrames {
        assert front[..i] == ears[..i];
      }
      QuietRunNeverLogs(s, front);
      CountIsTrailingLows(s, front);
      assert ears[..n] == ears;
      assert TrailingLows(ears) <= EarFrames;
    }
  }

  /** A low face with the counter still at most `EarFrames` writes no label, so
      a new detector that has seen 40 low faces still shows "Monitoring". */
  lemma StillMonitoringAfter40Lows(existing: seq<string>, lows: seq<real>)
    requires AllLow(lows) && |lows| == EarFrames
    ensures NextAll(Initial(existing), lows).status == Monitoring
    ensures NextAll(Initial(existing), lows).log == existing
  {
    FirstDrowsyOnStep41(Initial(existing), lows);
  }

  /** A drowsy episode and the recovery from it: from a zero counter and an
      unflagged alert, `n > 40` low faces and then one high face start exactly
      one playback, log `n - 40` rows (one per drowsy step, not one per episode),
      and leave the detector awake with the flag cleared. */
  lemma EpisodeThenRecovery(s: State, lows: seq<real>, high: real)
    requires s.count == 0 && !s.alert.sound
    requires AllLow(lows) && |lows| > EarFrames && high >= EarThresh
    ensures NextAll(s, lows + [high]).log == s.log + Rows(|lows| - EarFrames)
    ensures NextAll(s, lows + [high]).alert == AlertState(false, s.alert.playbacks + 1)
    ensures NextAll(s, lows + [high]).status == Awake
    ensures NextAll(s, lows + [high]).count == 0
  {
    LowRun(s, lows);
    NextAllSnoc(s, lows, high);
  }

  /** 41 low faces and then a high one: the drowsy actions happen once, at the
      41st face, and the 42nd face makes the detector awake again. */
  lemma Scenario41LowThenHigh(existing: seq<string>, lows: seq<real>, high: real)
    requires AllLow(lows) && |lows| == EarFrames + 1 && high >= EarThresh
    ensures NextAll(Initial(existing), lows).status == Drowsy
    ensures NextAll(Initial(existing), lows + [high]).log == existing + [DrowsyRow]
    ensures NextAll(Initial(existing), lows + [high]).alert == AlertState(false, 1)
    ensures NextAll(Initial(existing), lows + [high]).status == Awake
  {
    LowRun(Initial(existing), lows);
    EpisodeThenRecovery(Initial(existing), lows, high);
    assert Rows(1) == [DrowsyRow];
  }

  /** 42 low faces: one playback, but two "Drowsy" rows, since a row is logged
      on every drowsy step. */
  lemma Scenario42Low(existing: seq<string>, lows: seq<real>)
    requires AllLow(lows) && |lows| == EarFrames + 2
    ensures NextAll(Initial(existing), lows).log == existing + [DrowsyRow, DrowsyRow]
    ensures NextAll(Initial(existing), lows).alert == AlertState(true, 1)
    ensures NextAll(Initial(existing), lows).status == Drowsy
  {
    LowRun(Initial(existing), lows);
    assert Rows(2) == [DrowsyRow, DrowsyRow];
  }
}
