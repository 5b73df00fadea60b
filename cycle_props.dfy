/**
 What one polling cycle guarantees, proved about `CycleSpec.Cycle`: which
 record triggers which notice, what the status map holds afterwards, that
 dropped ids are dropped silently, that notices keep snapshot order, and
 when a repeated poll is silent.
 */
module CycleProps {
  import opened Types
  import opened CycleSpec

  /** Record `i` is the first record of `cs` with its id. */
  predicate FirstOccurrence(cs: seq<Conv>, i: int)
    requires 0 <= i < |cs|
  {
    forall j :: 0 <= j < i ==> cs[j].id != cs[i].id
  }

  /** Record `i` is the last record of `cs` with its id. */
  predicate LastOccurrence(cs: seq<Conv>, i: int)
    requires 0 <= i < |cs|
  {
    forall j :: i < j < |cs| ==> cs[j].id != cs[i].id
  }

  /** No id occurs twice in `cs`. */
  predicate DistinctIds(cs: seq<Conv>)
  {
    forall i, j :: 0 <= i < j < |cs| ==> cs[i].id != cs[j].id
  }

  /** Every record of `cs` with the same id carries the same status. */
  predicate Consistent(cs: seq<Conv>)
  {
    forall i, j :: 0 <= i < |cs| && 0 <= j < |cs| && cs[i].id == cs[j].id ==> StatusOf(cs[i]) == StatusOf(cs[j])
  }

  /** How many "new task" notices in `ms` carry id `x`. */
  function NewTasksFor(ms: seq<Msg>, x: string): nat
    decreases |ms|
  {
    if ms == [] then 0
    else
      var m := ms[|ms| - 1];
      NewTasksFor(ms[..|ms| - 1], x) + (if m.NewTask? && m.id == x then 1 else 0)
  }

  // ---------------------------------------------------------------------
  // The per-record view of a cycle

  lemma {:induction false} EmittedPrefix(s: State, cs: seq<Conv>, i: nat)
    requires i <= |cs|
    ensures Emitted(s, cs[..i]) == Emitted(s, cs)[..i]
    decreases |cs|
  {
    if i < |cs| {
      var init := cs[..|cs| - 1];
      assert init[..i] == cs[..i];
      EmittedPrefix(s, init, i);
    } else {
      assert cs[..i] == cs;
    }
  }

  /** Record `i` triggers its notice against the map left by the records
      before it, and against nothing else. */
  lemma EmittedAt(s: State, cs: seq<Conv>, i: nat)
    requires i < |cs|
    ensures Emitted(s, cs)[i] == Notice(StateAfter(s, cs[..i]), cs[i])
  {
    EmittedPrefix(s, cs, i + 1);
    assert cs[..i + 1][..i] == cs[..i];
  }

  /** Visiting records only adds their ids and leaves other entries alone. */
  lemma {:induction false} StateAfterShape(s: State, cs: seq<Conv>)
    ensures StateAfter(s, cs).Keys == s.Keys + Ids(cs)
    ensures forall k :: k in s && k !in Ids(cs) ==> StateAfter(s, cs)[k] == s[k]
    decreases |cs|
  {
    if cs != [] {
      var init := cs[..|cs| - 1];
      StateAfterShape(s, init);
      assert cs == init + [cs[|cs| - 1]];
      IdsSnoc(init, cs[|cs| - 1]);
    }
  }

  /** After visiting `cs`, an id holds the status of its last record. */
  lemma {:induction false} StateAfterLast(s: State, cs: seq<Conv>, i: nat)
    requires i < |cs| && LastOccurrence(cs, i)
    ensures cs[i].id in StateAfter(s, cs) && StateAfter(s, cs)[cs[i].id] == StatusOf(cs[i])
    decreases |cs|
  {
    if i < |cs| - 1 {
      var init := cs[..|cs| - 1];
      assert LastOccurrence(init, i) by {
        forall j | i < j < |init| ensures init[j].id != init[i].id {
          assert cs[j].id != cs[i].id;
        }
      }
      StateAfterLast(s, init, i);
    }
  }

  /** The map the records before `i` leave holds, for `cs[i].id`, what the
      map held at the start if no earlier record had that id. */
  lemma UntouchedBefore(s: State, cs: seq<Conv>, i: nat)
    requires i < |cs| && FirstOccurrence(cs, i)
    ensures cs[i].id in StateAfter(s, cs[..i]) <==> cs[i].id in s
    ensures cs[i].id in s ==> StateAfter(s, cs[..i])[cs[i].id] == s[cs[i].id]
  {
    StateAfterShape(s, cs[..i]);
    assert cs[i].id !in Ids(cs[..i]);
  }

  // ---------------------------------------------------------------------
  // The notices a record triggers

  /** An id neither tracked nor seen earlier in the snapshot is announced
      once, with its title ("Untitled" when missing) and its id. */
  lemma NewIdAnnounced(s: State, cs: seq<Conv>, i: nat)
    requires i < |cs| && FirstOccurrence(cs, i) && cs[i].id !in s
    ensures Emitted(s, cs)[i] == Some(NewTask(TitleOf(cs[i]), cs[i].id))
    ensures cs[i].title.None? ==> Emitted(s, cs)[i] == Some(NewTask("Untitled", cs[i].id))
  {
    EmittedAt(s, cs, i);
    UntouchedBefore(s, cs, i);
  }

  /** A tracked id met for the first time in the snapshot is silent when its
      status equals the stored one and reported with its new status when not. */
  lemma TrackedIdComparedWithStored(s: State, cs: seq<Conv>, i: nat)
    requires i < |cs| && FirstOccurrence(cs, i) && cs[i].id in s
    ensures s[cs[i].id] == StatusOf(cs[i]) ==> Emitted(s, cs)[i] == None
    ensures s[cs[i].id] != StatusOf(cs[i]) ==>
              Emitted(s, cs)[i] == Some(StatusUpdate(TitleOf(cs[i]), StatusOf(cs[i])))
  {
    EmittedAt(s, cs, i);
    UntouchedBefore(s, cs, i);
  }

  /** A repeated id in one snapshot is compared with the status of its
      previous record, so differing duplicates trigger a status update. */
  lemma RepeatedIdComparedWithPrevious(s: State, cs: seq<Conv>, j: nat, i: nat)
    requires j < i < |cs| && cs[j].id == cs[i].id
    requires forall k :: j < k < i ==> cs[k].id != cs[i].id
    ensures StatusOf(cs[j]) == StatusOf(cs[i]) ==> Emitted(s, cs)[i] == None
    ensures StatusOf(cs[j]) != StatusOf(cs[i]) ==>
              Emitted(s, cs)[i] == Some(StatusUpdate(TitleOf(cs[i]), StatusOf(cs[i])))
  {
    EmittedAt(s, cs, i);
    var prefix := cs[..i];
    assert LastOccurrence(prefix, j) by {
      forall k | j < k < |prefix| ensures prefix[k].id != prefix[j].id {
        assert prefix[k] == cs[k];
      }
    }
    StateAfterLast(s, prefix, j);
  }

  /** With distinct ids every record is judged against the map as it was
      before the cycle. */
  lemma DistinctIdsJudgedAgainstStart(s: State, cs: seq<Conv>)
    requires DistinctIds(cs)
    ensures forall i :: 0 <= i < |cs| ==> Emitted(s, cs)[i] == Notice(s, cs[i])
  {
    forall i | 0 <= i < |cs|
      ensures Emitted(s, cs)[i] == Notice(s, cs[i])
    {
      EmittedAt(s, cs, i);
      UntouchedBefore(s, cs, i);
    }
  }

  lemma SentSnoc(outs: seq<Option<Msg>>, o: Option<Msg>)
    ensures Sent(outs + [o]) == Sent(outs) + (if o.Some? then [o.value] else [])
  {
    assert (outs + [o])[..|outs|] == outs;
  }

  lemma NewTasksForSnoc(ms: seq<Msg>, o: Option<Msg>, x: string)
    ensures NewTasksFor(ms + (if o.Some? then [o.value] else []), x)
            == NewTasksFor(ms, x) + (if o.Some? && o.value.NewTask? && o.value.id == x then 1 else 0)
  {
    if o.Some? {
      assert (ms + [o.value])[..|ms|] == ms;
    } else {
      assert ms + [] == ms;
    }
  }

  /** A record announces id `x` exactly when it carries `x` and `x` is not
      in the map yet. */
  lemma NoticeAnnounces(m: State, c: Conv, x: string)
    ensures var o := Notice(m, c);
            (o.Some? && o.value.NewTask? && o.value.id == x) <==> (c.id == x && x !in m)
  {
  }

  /** Every id new to the map gets exactly one "new task" notice in the
      cycle, and a tracked id gets none. */
  lemma {:induction false} OneNewTaskPerNewId(s: State, cs: seq<Conv>, x: string)
    ensures NewTasksFor(Sent(Emitted(s, cs)), x) == if x in Ids(cs) && x !in s then 1 else 0
    decreases |cs|
  {
    if cs != [] {
      var init := cs[..|cs| - 1];
      var c := cs[|cs| - 1];
      var before := StateAfter(s, init);
      var o := Notice(before, c);
      OneNewTaskPerNewId(s, init, x);
      assert x in before <==> x in s || x in Ids(init) by {
        StateAfterShape(s, init);
      }
      assert x in Ids(cs) <==> x in Ids(init) || c.id == x by {
        assert cs == init + [c];
        IdsSnoc(init, c);
      }
      NoticeAnnounces(before, c, x);
      assert Emitted(s, cs) == Emitted(s, init) + [o];
      SentSnoc(Emitted(s, init), o);
      NewTasksForSnoc(Sent(Emitted(s, init)), o, x);
    }
  }

  // ---------------------------------------------------------------------
  // Order of the notices

  lemma {:induction false} SentLength(outs: seq<Option<Msg>>)
    ensures |Sent(outs)| == Delivered(outs)
    decreases |outs|
  {
    if outs != [] {
      SentLength(outs[..|outs| - 1]);
    }
  }

  /** The present entry at position `i` is sent as notice number
      `Delivered(outs[..i])`. */
  lemma {:induction false} SentAt(outs: seq<Option<Msg>>, i: nat)
    requires i < |outs| && outs[i].Some?
    ensures Delivered(outs[..i]) < |Sent(outs)|
    ensures Sent(outs)[Delivered(outs[..i])] == outs[i].value
    decreases |outs|
  {
    var init := outs[..|outs| - 1];
    SentLength(outs);
    SentLength(init);
    if i == |outs| - 1 {
      assert outs[..i] == init;
    } else {
      assert init[..i] == outs[..i];
      SentAt(init, i);
    }
  }

  lemma {:induction false} DeliveredGrows(outs: seq<Option<Msg>>, i: nat, j: nat)
    requires i < j <= |outs| && outs[i].Some?
    ensures Delivered(outs[..i]) < Delivered(outs[..j])
    decreases j
  {
    var pre := outs[..j];
    assert pre[..j - 1] == outs[..j - 1];
    if i < j - 1 {
      DeliveredGrows(outs, i, j - 1);
    } else {
      assert outs[..i] == outs[..j - 1];
    }
  }

  /** Notices go out in snapshot order: the notice of an earlier record is
      sent before the notice of a later one. */
  lemma NoticesInSnapshotOrder(s: State, cs: seq<Conv>, i: nat, j: nat)
    requires i < j < |cs|
    requires Emitted(s, cs)[i].Some? && Emitted(s, cs)[j].Some?
    ensures var outs := Emitted(s, cs);
            var sent := Cycle(s, Some(cs)).sent;
            Delivered(outs[..i]) < Delivered(outs[..j]) < |sent|
            && sent[Delivered(outs[..i])] == outs[i].value
            && sent[Delivered(outs[..j])] == outs[j].value
  {
    var outs := Emitted(s, cs);
    SentAt(outs, i);
    SentAt(outs, j);
    DeliveredGrows(outs, i, j);
  }

  // ---------------------------------------------------------------------
  // The map after a cycle

  /** After a cycle on a non-empty snapshot each id holds the status of its
      last record ("UNKNOWN" when that record has none). */
  lemma CycleRecordsLastStatus(s: State, cs: seq<Conv>, i: nat)
    requires i < |cs| && LastOccurrence(cs, i)
    ensures cs[i].id in Cycle(s, Some(cs)).states
    ensures Cycle(s, Some(cs)).states[cs[i].id] == StatusOf(cs[i])
    ensures cs[i].status.None? ==> Cycle(s, Some(cs)).states[cs[i].id] == "UNKNOWN"
  {
    StateAfterLast(s, cs, i);
    assert cs[i] in cs;
  }

  /** A record with another id treats `m - {k}` as it treats `m`. */
  lemma NoticeIgnoresOtherIds(m: State, c: Conv, k: string)
    requires c.id != k
    ensures Notice(m - {k}, c) == Notice(m, c)
    ensures Record(m - {k}, c) == Record(m, c) - {k}
  {
  }

  lemma {:induction false} ForgetUntrackedState(s: State, cs: seq<Conv>, k: string)
    requires k !in Ids(cs)
    ensures StateAfter(s - {k}, cs) == StateAfter(s, cs) - {k}
    decreases |cs|
  {
    if cs != [] {
      var init := cs[..|cs| - 1];
      var c := cs[|cs| - 1];
      assert cs == init + [c];
      IdsSnoc(init, c);
      ForgetUntrackedState(s, init, k);
      NoticeIgnoresOtherIds(StateAfter(s, init), c, k);
    }
  }

  /** An id the records do not carry has no effect on what they trigger. */
  lemma {:induction false} ForgetUntracked(s: State, cs: seq<Conv>, k: string)
    requires k !in Ids(cs)
    ensures Emitted(s - {k}, cs) == Emitted(s, cs)
    decreases |cs|
  {
    if cs != [] {
      var init := cs[..|cs| - 1];
      var c := cs[|cs| - 1];
      assert cs == init + [c];
      IdsSnoc(init, c);
      ForgetUntracked(s, init, k);
      ForgetUntrackedState(s, init, k);
      NoticeIgnoresOtherIds(StateAfter(s, init), c, k);
    }
  }

  /** An id the snapshot no longer lists is dropped from the map, and the
      cycle sends exactly what it would have sent had the id never been
      tracked: no removal notice. */
  lemma DroppedIdsAreSilent(s: State, cs: seq<Conv>, k: string)
    requires cs != [] && k in s && k !in Ids(cs)
    ensures k !in Cycle(s, Some(cs)).states
    ensures Cycle(s, Some(cs)).sent == Cycle(s - {k}, Some(cs)).sent
  {
    ForgetUntracked(s, cs, k);
    ForgetUntrackedState(s, cs, k);
  }

  /** A failed fetch or an empty list sends nothing and clears nothing. */
  lemma SkippedSnapshotChangesNothing(s: State, snapshot: Snapshot)
    requires snapshot.None? || snapshot.value == []
    ensures Cycle(s, snapshot).sent == []
    ensures Cycle(s, snapshot).states == s
  {
  }

  // ---------------------------------------------------------------------
  // Repeating a poll

  lemma {:induction false} ConsistentStateAfter(s: State, cs: seq<Conv>)
    requires Consistent(cs)
    ensures forall i :: 0 <= i < |cs| ==>
              cs[i].id in StateAfter(s, cs) && StateAfter(s, cs)[cs[i].id] == StatusOf(cs[i])
    decreases |cs|
  {
    if cs != [] {
      var init := cs[..|cs| - 1];
      assert Consistent(init) by {
        forall i, j | 0 <= i < |init| && 0 <= j < |init| && init[i].id == init[j].id
          ensures StatusOf(init[i]) == StatusOf(init[j])
        {
          assert init[i] == cs[i] && init[j] == cs[j];
        }
      }
      ConsistentStateAfter(s, init);
      forall i | 0 <= i < |cs|
        ensures cs[i].id in StateAfter(s, cs) && StateAfter(s, cs)[cs[i].id] == StatusOf(cs[i])
      {
        if i < |cs| - 1 {
          assert init[i] == cs[i];
        }
      }
    }
  }

  /** From a map that already holds every record's status, visiting the
      records triggers nothing and changes nothing. */
  lemma {:induction false} StableMapIsSilent(t: State, cs: seq<Conv>)
    requires forall i :: 0 <= i < |cs| ==> cs[i].id in t && t[cs[i].id] == StatusOf(cs[i])
    ensures StateAfter(t, cs) == t
    ensures Sent(Emitted(t, cs)) == []
    decreases |cs|
  {
    if cs != [] {
      var init := cs[..|cs| - 1];
      assert forall i :: 0 <= i < |init| ==> init[i] == cs[i];
      StableMapIsSilent(t, init);
      var outs := Emitted(t, cs);
      assert outs[..|outs| - 1] == Emitted(t, init);
    }
  }

  /** Polling the same snapshot again with the map the first poll left sends
      nothing and keeps the map, provided duplicate records of one id agree
      on its status. */
  lemma SecondPollIsSilent(s: State, cs: seq<Conv>)
    requires Consistent(cs)
    ensures var first := Cycle(s, Some(cs));
            Cycle(first.states, Some(cs)) == Outcome([], first.states)
  {
    if cs != [] {
      var t := Cycle(s, Some(cs)).states;
      ConsistentStateAfter(s, cs);
      StateAfterShape(s, cs);
      assert forall i :: 0 <= i < |cs| ==> cs[i].id in Ids(cs);
      StableMapIsSilent(t, cs);
      StateAfterShape(t, cs);
    }
  }

  /** If visiting the records from `t` sends nothing, every record already
      agrees with `t`. */
  lemma {:induction false} SilentMeansStable(t: State, cs: seq<Conv>)
    requires Sent(Emitted(t, cs)) == []
    ensures forall i :: 0 <= i < |cs| ==> cs[i].id in t && t[cs[i].id] == StatusOf(cs[i])
    decreases |cs|
  {
    if cs != [] {
      var init := cs[..|cs| - 1];
      var c := cs[|cs| - 1];
      var o := Notice(StateAfter(t, init), c);
      assert Emitted(t, cs) == Emitted(t, init) + [o];
      SentSnoc(Emitted(t, init), o);
      assert Sent(Emitted(t, init)) == [] && o.None?;
      SilentMeansStable(t, init);
      assert forall i :: 0 <= i < |init| ==> init[i] == cs[i];
      StableMapIsSilent(t, init);
    }
  }

  /** Repeating a poll is silent exactly when duplicate records of one id
      agree on its status. */
  lemma SecondPollSilentIffConsistent(s: State, cs: seq<Conv>)
    ensures var first := Cycle(s, Some(cs));
            Cycle(first.states, Some(cs)).sent == [] <==> Consistent(cs)
  {
    if cs != [] {
      var t := Cycle(s, Some(cs)).states;
      if Cycle(t, Some(cs)).sent == [] {
        SilentMeansStable(t, cs);
        forall i, j | 0 <= i < |cs| && 0 <= j < |cs| && cs[i].id == cs[j].id
          ensures StatusOf(cs[i]) == StatusOf(cs[j])
        {
        }
      }
      if Consistent(cs) {
        SecondPollIsSilent(s, cs);
      }
    }
  }

  /** Without agreement the second poll is not silent: two records of one id
      with statuses "X" then "Y" report both statuses again. */
  lemma DuplicateIdsBreakIdempotence()
    ensures var cs := [Conv("a", None, Some("X")), Conv("a", None, Some("Y"))];
            var first := Cycle(map[], Some(cs));
            first.sent == [NewTask("Untitled", "a"), StatusUpdate("Untitled", "Y")]
            && first.states == map["a" := "Y"]
            && Cycle(first.states, Some(cs)).sent
               == [StatusUpdate("Untitled", "X"), StatusUpdate("Untitled", "Y")]
  {
    var c0, c1 := Conv("a", None, Some("X")), Conv("a", None, Some("Y"));
    var cs := [c0, c1];
    assert Ids(cs) == {"a"} by {
      assert [] + [c0] == [c0] && [c0] + [c1] == cs;
      IdsSnoc([], c0);
      IdsSnoc([c0], c1);
    }
    TwoRecords(map[], c0, c1);
    TwoNotices(Some(NewTask("Untitled", "a")), Some(StatusUpdate("Untitled", "Y")));
    var t := map["a" := "Y"];
    assert StateAfter(map[], cs) == t;
    TwoRecords(t, c0, c1);
    TwoNotices(Some(StatusUpdate("Untitled", "X")), Some(StatusUpdate("Untitled", "Y")));
  }

  /** Two records are judged one after the other. */
  lemma TwoRecords(s: State, c0: Conv, c1: Conv)
    ensures Emitted(s, [c0, c1]) == [Notice(s, c0), Notice(Record(s, c0), c1)]
    ensures StateAfter(s, [c0, c1]) == Record(Record(s, c0), c1)
  {
    assert [c0, c1][..1] == [c0];
    assert [c0][..0] == [];
  }

  /** Two present notices are both sent, in order. */
  lemma TwoNotices(m0: Option<Msg>, m1: Option<Msg>)
    requires m0.Some? && m1.Some?
    ensures Sent([m0, m1]) == [m0.value, m1.value]
  {
    assert [m0, m1][..1] == [m0];
    assert [m0][..0] == [];
  }

  // ---------------------------------------------------------------------
  // A run of cycles

  /** A run extended by one poll is the shorter run followed by that cycle. */
  lemma RunSnoc(s: State, polls: seq<Snapshot>, p: Snapshot)
    ensures var before := Run(s, polls);
            var now := Cycle(before.states, p);
            Run(s, polls + [p]) == Outcome(before.sent + now.sent, now.states)
  {
    assert (polls + [p])[..|polls|] == polls;
  }

  /** Two runs that end alike still end alike after one more poll. */
  lemma RunSnocCongruent(s: State, a: seq<Snapshot>, b: seq<Snapshot>, last: Snapshot)
    requires Run(s, a) == Run(s, b)
    ensures Run(s, a + [last]) == Run(s, b + [last])
  {
    RunSnoc(s, a, last);
    RunSnoc(s, b, last);
  }

  /** A skipped poll at the end of a run changes nothing. */
  lemma SkippedPollAtEnd(s: State, p: seq<Snapshot>, x: Snapshot)
    requires Skipped(x)
    ensures Run(s, p + [x]) == Run(s, p)
  {
    RunSnoc(s, p, x);
    var before := Run(s, p);
    assert Cycle(before.states, x) == Outcome([], before.states);
    assert before.sent + [] == before.sent;
  }

  /** A skipped poll (a failed fetch or an empty list) anywhere in a run
      leaves the run's notices and final map exactly as if that poll had not
      happened. */
  lemma {:induction false} SkippedPollIsInvisible(s: State, p: seq<Snapshot>, x: Snapshot, q: seq<Snapshot>)
    requires Skipped(x)
    ensures Run(s, p + [x] + q) == Run(s, p + q)
    decreases |q|
  {
    if q == [] {
      assert p + [x] + q == p + [x];
      assert p + q == p;
      SkippedPollAtEnd(s, p, x);
    } else {
      var init := q[..|q| - 1];
      var last := q[|q| - 1];
      var withSkip := p + [x] + init;
      var without := p + init;
      SkippedPollIsInvisible(s, p, x, init);
      assert q == init + [last];
      assert p + [x] + q == withSkip + [last];
      assert p + q == without + [last];
      RunSnocCongruent(s, withSkip, without, last);
    }
  }
}
