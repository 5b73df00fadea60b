/**
 The bot's polling state and its cycle, in place: `states` is the
 module-level dictionary of last-seen statuses, and `PollCycle` is one pass
 of the body of the polling loop after the fetch.
 */
module Monitor {
  import opened Types
  import opened CycleSpec
  import CycleProps

  class Monitor {
    /** Last-seen status per conversation id. */
    var states: map<string, string>

    /** The bot starts with nothing seen. */
    constructor ()
      ensures states == map[]
    {
      states := map[];
    }

    /** One cycle on a fetched snapshot: returns the notices in sending order
        and leaves in `states` exactly what `Cycle` describes. */
    method PollCycle(snapshot: Snapshot) returns (sent: seq<Msg>)
      modifies this
      ensures Outcome(sent, states) == Cycle(old(states), snapshot)
      ensures Skipped(snapshot) ==> sent == [] && states == old(states)
      ensures !Skipped(snapshot) ==> states.Keys == Ids(snapshot.value)
    {
      sent := [];
      if snapshot.None? || snapshot.value == [] {
        return;
      }
      var conversations := snapshot.value;
      ghost var start := states;
      var currentIds: set<string> := {};
      for i := 0 to |conversations|
        invariant currentIds == Ids(conversations[..i])
        invariant states == StateAfter(start, conversations[..i])
        invariant sent == Sent(Emitted(start, conversations[..i]))
      {
        var conv := conversations[i];
        var title := TitleOf(conv);
        var status := StatusOf(conv);
        currentIds := currentIds + {conv.id};
        assert conversations[..i + 1] == conversations[..i] + [conv];
        IdsSnoc(conversations[..i], conv);
        ghost var before := Emitted(start, conversations[..i]);
        ghost var notice := Notice(states, conv);
        assert Emitted(start, conversations[..i + 1]) == before + [notice];
        CycleProps.SentSnoc(before, notice);
        if conv.id !in states {
          sent := sent + [NewTask(title, conv.id)];
          states := states[conv.id := status];
        } else if states[conv.id] != status {
          sent := sent + [StatusUpdate(title, status)];
          states := states[conv.id := status];
        }
      }
      assert conversations[..|conversations|] == conversations;

      // Drop every id that the snapshot no longer lists.
      DropStale(currentIds);
    }

    /** Deletes every tracked id that is not in `currentIds`; the keys are
        visited as a snapshot taken before the first deletion. */
    method DropStale(currentIds: set<string>)
      modifies this
      ensures states == Prune(old(states), currentIds)
    {
      ghost var visited := states;
      var keys := states.Keys;
      while keys != {}
        invariant keys <= states.Keys <= visited.Keys
        invariant forall k :: k in visited ==> (k in states <==> k in keys || k in currentIds)
        invariant forall k :: k in states ==> states[k] == visited[k]
        decreases keys
      {
        var k :| k in keys;
        if k !in currentIds {
          states := states - {k};
        }
        keys := keys - {k};
      }
    }

    /** A bounded run of the polling loop: one cycle per snapshot, each
        finished before the next begins. */
    method PollLoop(polls: seq<Snapshot>) returns (sent: seq<Msg>)
      modifies this
      ensures Outcome(sent, states) == Run(old(states), polls)
    {
      sent := [];
      ghost var start := states;
      for n := 0 to |polls|
        invariant Outcome(sent, states) == Run(start, polls[..n])
      {
        var now := PollCycle(polls[n]);
        sent := sent + now;
        assert polls[..n + 1][..n] == polls[..n];
      }
      assert polls[..|polls|] == polls;
    }
  }
}
