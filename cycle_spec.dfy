/**
 A pure account of one polling cycle of `poll_and_notify`: the notices it
 sends and the last-seen status map it leaves behind, as functions of the
 map it starts from and the snapshot that was fetched. The method
 `Monitor.Monitor.PollCycle` is proved to agree with `Cycle`.
 */
module CycleSpec {
  import opened Types

  /** Last-seen status per conversation id. */
  type State = map<string, string>

  /** A fetched snapshot: `None` when the fetch failed, otherwise the list. */
  type Snapshot = Option<seq<Conv>>

  /** What a cycle produces: the notices in sending order, and the new map. */
  datatype Outcome = Outcome(sent: seq<Msg>, states: State)

  /** The notice one record triggers against the map as it stands when the
      record is reached: an unseen id is announced, a seen id whose status
      differs is reported, anything else is silent. */
  function Notice(s: State, c: Conv): (r: Option<Msg>)
    ensures r.None? <==> c.id in s && s[c.id] == StatusOf(c)
    ensures r.Some? && r.value.NewTask? <==> c.id !in s
    ensures r.Some? ==> r.value.title == TitleOf(c)
    ensures r.Some? && r.value.NewTask? ==> r.value.id == c.id
    ensures r.Some? && r.value.StatusUpdate? ==> r.value.status == StatusOf(c)
  {
    if c.id !in s then Some(NewTask(TitleOf(c), c.id))
    else if s[c.id] != StatusOf(c) then Some(StatusUpdate(TitleOf(c), StatusOf(c)))
    else None
  }

  /** The map after one record: the status is written only together with a
      notice, which comes to the same as always writing it. */
  function Record(s: State, c: Conv): (r: State)
    ensures r == s[c.id := StatusOf(c)]
  {
    if Notice(s, c).Some? then s[c.id := StatusOf(c)] else s
  }

  /** The map after the records of `cs` were visited in order. */
  function StateAfter(s: State, cs: seq<Conv>): State
    decreases |cs|
  {
    if cs == [] then s
    else Record(StateAfter(s, cs[..|cs| - 1]), cs[|cs| - 1])
  }

  /** Per record of `cs`, the notice it triggered (or none), in order. */
  function Emitted(s: State, cs: seq<Conv>): (r: seq<Option<Msg>>)
    ensures |r| == |cs|
    decreases |cs|
  {
    if cs == [] then []
    else
      var init := cs[..|cs| - 1];
      Emitted(s, init) + [Notice(StateAfter(s, init), cs[|cs| - 1])]
  }

  /** The notices actually sent, in order: the present entries of `outs`. */
  function Sent(outs: seq<Option<Msg>>): (r: seq<Msg>)
    ensures |r| <= |outs|
    decreases |outs|
  {
    if outs == [] then []
    else
      var last := outs[|outs| - 1];
      Sent(outs[..|outs| - 1]) + (if last.Some? then [last.value] else [])
  }

  /** How many entries of `outs` are present. */
  function Delivered(outs: seq<Option<Msg>>): nat
    decreases |outs|
  {
    if outs == [] then 0
    else Delivered(outs[..|outs| - 1]) + (if outs[|outs| - 1].Some? then 1 else 0)
  }

  /** The ids that occur in a snapshot. */
  function Ids(cs: seq<Conv>): set<string>
  {
    set c | c in cs :: c.id
  }

  /** Appending a record adds exactly its id. */
  lemma IdsSnoc(cs: seq<Conv>, c: Conv)
    ensures Ids(cs + [c]) == Ids(cs) + {c.id}
  {
    assert forall d :: d in cs + [c] <==> d in cs || d == c;
  }

  /** Visiting records adds exactly their ids to the map. */
  lemma {:induction false} StateAfterKeys(s: State, cs: seq<Conv>)
    ensures StateAfter(s, cs).Keys == s.Keys + Ids(cs)
    decreases |cs|
  {
    if cs != [] {
      var init := cs[..|cs| - 1];
      assert cs == init + [cs[|cs| - 1]];
      IdsSnoc(init, cs[|cs| - 1]);
      StateAfterKeys(s, init);
    }
  }

  /** The entries of `s` whose id is in `keep`. */
  function Prune(s: State, keep: set<string>): (r: State)
    ensures r.Keys == s.Keys * keep
    ensures forall k :: k in r ==> r[k] == s[k]
  {
    map k | k in s && k in keep :: s[k]
  }

  /** A snapshot that is skipped: a failed fetch or an empty list. */
  predicate Skipped(snapshot: Snapshot)
  {
    snapshot.None? || snapshot.value == []
  }

  /** One cycle: skipped snapshots change nothing; otherwise every record is
      visited in order and then every id absent from the snapshot is dropped,
      without a notice. */
  function Cycle(s: State, snapshot: Snapshot): (r: Outcome)
    ensures Skipped(snapshot) ==> r.states == s && r.sent == []
    ensures !Skipped(snapshot) ==> r.states.Keys == Ids(snapshot.value)
    ensures !Skipped(snapshot) ==> |r.sent| <= |snapshot.value|
  {
    if Skipped(snapshot) then Outcome([], s)
    else
      var cs := snapshot.value;
      StateAfterKeys(s, cs);
      Outcome(Sent(Emitted(s, cs)), Prune(StateAfter(s, cs), Ids(cs)))
  }

  /** A bounded run of cycles, one per snapshot, strictly one after another. */
  function Run(s: State, polls: seq<Snapshot>): (r: Outcome)
    ensures (forall i :: 0 <= i < |polls| ==> Skipped(polls[i])) ==> r == Outcome([], s)
    decreases |polls|
  {
    if polls == [] then Outcome([], s)
    else
      var before := Run(s, polls[..|polls| - 1]);
      var now := Cycle(before.states, polls[|polls| - 1]);
      Outcome(before.sent + now.sent, now.states)
  }
}
