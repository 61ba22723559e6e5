/**
 The simulated progress narrative that the client plays when it has no
 incremental signal from the backend: three stages, each cut into 20 equal
 steps, an event at every step boundary. The pauses between steps are left out;
 only the sequence of observer calls is modelled.
 */
module Schedule {
  import opened Types
  import opened Lines

  const Steps: nat := 20

  /** The stages played, in order. */
  const ScheduleStages: seq<Stage> := [Uploading, Extracting, Analyzing]

  /** The events of one stage: progress `i / steps * 100` for `i = 0..steps`. */
  function Ramp(stage: Stage): (r: seq<Event>)
    ensures |r| == Steps + 1
  {
    seq(Steps + 1, i => Event(stage, i * 100 / Steps))
  }

  /** The stages played one after the other. */
  function Playback(stages: seq<Stage>): (r: seq<Event>)
    ensures |r| == |stages| * (Steps + 1)
    decreases |stages|
  {
    if stages == [] then [] else Playback(AllButLast(stages)) + Ramp(Last(stages))
  }

  /** The events of `simulateProgress`: three stages of 21 events each. */
  function SimulatedSchedule(): (r: seq<Event>)
    ensures |r| == 63
    ensures r[0] == Event(Uploading, 0) && r[62] == Event(Analyzing, 100)
  {
    Playback(ScheduleStages)
  }

  /** The nested loops of `simulateProgress` and of `mockAnalyzeVideo`. */
  method PlaySchedule() returns (events: seq<Event>)
    ensures events == SimulatedSchedule()
  {
    var stages := ScheduleStages;
    events := [];
    for s := 0 to |stages|
      invariant events == Playback(stages[..s])
    {
      for i := 0 to Steps + 1
        invariant events == Playback(stages[..s]) + Ramp(stages[s])[..i]
      {
        var progress := i * 100 / Steps;
        events := events + [Event(stages[s], progress)];
      }
      assert stages[..s + 1][..s] == stages[..s];
    }
    assert stages[..|stages|] == stages;
  }

  lemma ScheduleIsThreeRamps()
    ensures SimulatedSchedule() == Ramp(Uploading) + Ramp(Extracting) + Ramp(Analyzing)
  {
    assert AllButLast(ScheduleStages) == [Uploading, Extracting];
    assert AllButLast([Uploading, Extracting]) == [Uploading];
    assert AllButLast([Uploading]) == [];
    assert Playback([Uploading]) == Ramp(Uploading);
  }

  /**
   The schedule event by event: 63 events, the `k`-th is stage `k / 21` of the
   stage list at progress `5 * (k % 21)`, so every stage runs 0, 5, ..., 100.
   */
  lemma ScheduleAt(k: int)
    requires 0 <= k < 3 * (Steps + 1)
    ensures |SimulatedSchedule()| == 63
    ensures SimulatedSchedule()[k] == Event(ScheduleStages[k / 21], 5 * (k % 21))
  {
    ScheduleIsThreeRamps();
  }

  /** Within one stage the progress goes 0, 5, ..., 100. */
  lemma RampNondecreasing(stage: Stage)
    ensures Nondecreasing(Ramp(stage))
    ensures Ramp(stage)[0] == Event(stage, 0) && Last(Ramp(stage)) == Event(stage, 100)
  {
  }

  /** Two runs of events, the first wholly at or before the second, make one non-decreasing run. */
  lemma NondecreasingAppend(a: seq<Event>, b: seq<Event>)
    requires Nondecreasing(a) && Nondecreasing(b)
    requires forall i, j :: 0 <= i < |a| && 0 <= j < |b| ==> EventLe(a[i], b[j])
    ensures Nondecreasing(a + b)
  {
    forall i, j | 0 <= i < j < |a + b|
      ensures EventLe((a + b)[i], (a + b)[j])
    {
      if j < |a| {
        assert EventLe(a[i], a[j]);
      } else if i >= |a| {
        assert EventLe(b[i - |a|], b[j - |a|]);
      } else {
        assert EventLe(a[i], b[j - |a|]);
      }
    }
  }

  /**
   The observer's calls in simulated mode: the schedule then `('complete', 100)`,
   64 calls in all, non-decreasing in (stage, progress), the last one `complete`.
   */
  lemma SimulatedRunOrdered()
    ensures |SimulatedSchedule() + [CompleteEvent]| == 64
    ensures Nondecreasing(SimulatedSchedule() + [CompleteEvent])
    ensures Last(SimulatedSchedule() + [CompleteEvent]) == CompleteEvent
  {
    ScheduleIsThreeRamps();
    var u, e, a := Ramp(Uploading), Ramp(Extracting), Ramp(Analyzing);
    RampNondecreasing(Uploading);
    RampNondecreasing(Extracting);
    RampNondecreasing(Analyzing);
    NondecreasingAppend(u, e);
    NondecreasingAppend(u + e, a);
    NondecreasingAppend(u + e + a, [CompleteEvent]);
  }
}
