/** Following a job log by byte offset while the job appends to it. */
module LogFollow {
  import opened Wrappers

  type Bytes = seq<bv8>

  /** An offset as the caller sends it: any number, or none of the finite ones. */
  datatype Offset = NotFinite | Finite(at: int)

  datatype Plan = Plan(from: nat, upTo: nat, truncated: bool)

  function PlanRead(previous: Offset, size: nat): (plan: Plan)
    ensures plan.from <= plan.upTo
  {
    var truncated := previous.NotFinite? || previous.at < 0 || previous.at > size;
    Plan(if truncated then 0 else previous.at, size, truncated)
  }

  /** Reading `[from, upTo)` of a file gives what it still has of that range. */
  function Slice(log: Bytes, from: nat, upTo: nat): Bytes {
    if upTo <= from || |log| <= from then [] else if upTo <= |log| then log[from..upTo] else log[from..]
  }

  datatype Reply = Reply(chunk: Bytes, nextOffset: nat, truncated: bool)

  /** `job.logs`: the size is taken first and the range read afterwards, so the file read is the
      measured one plus whatever was appended in between. */
  function Logs(measured: Option<Bytes>, appended: Bytes, previous: Offset): Reply {
    if measured.None? then Reply([], 0, false)
    else
      var plan := PlanRead(previous, |measured.value|);
      Reply(Slice(measured.value + appended, plan.from, plan.upTo), plan.upTo, plan.truncated)
  }

  // ----- A follower over a whole run -----

  datatype Event =
    | Append(bytes: Bytes)
    | Poll(during: Bytes)

  /** The log, the offset the follower will send next and the bytes it holds. */
  datatype State = State(log: Option<Bytes>, offset: nat, received: Bytes)

  function Grown(log: Option<Bytes>, bytes: Bytes): Option<Bytes> {
    if log.None? then Some(bytes) else Some(log.value + bytes)
  }

  /** A follower drops what it holds when told that reading started over. */
  function Take(received: Bytes, reply: Reply): Bytes {
    if reply.truncated then reply.chunk else received + reply.chunk
  }

  function Step(s: State, e: Event): State {
    match e
    case Append(bytes) => s.(log := Grown(s.log, bytes))
    case Poll(during) =>
      var reply := Logs(s.log, during, Finite(s.offset));
      State(if s.log.None? && during == [] then None else Grown(s.log, during), reply.nextOffset, Take(s.received, reply))
  }

  function Run(s: State, events: seq<Event>): State
    decreases |events|
  {
    if events == [] then s else Run(Step(s, events[0]), events[1..])
  }

  function Contents(log: Option<Bytes>): Bytes {
    if log.None? then [] else log.value
  }

  /** The follower holds exactly the log up to its offset. */
  predicate Follows(s: State) {
    s.offset <= |Contents(s.log)| && s.received == Contents(s.log)[..s.offset]
  }

  lemma AppendFollows(log: Bytes, offset: nat, bytes: Bytes)
    requires offset <= |log|
    ensures (log + bytes)[..offset] == log[..offset]
  {
  }

  lemma PollFollows(log: Bytes, offset: nat, during: Bytes)
    requires offset <= |log|
    ensures Slice(log + during, offset, |log|) == log[offset..]
    ensures log[..offset] + log[offset..] == log == (log + during)[..|log|]
  {
    var grown := log + during;
    if offset < |log| {
      assert grown[offset..|log|] == log[offset..];
    }
  }

  lemma StepFollows(s: State, e: Event)
    requires Follows(s)
    ensures Follows(Step(s, e))
    ensures e.Poll? && s.log.Some? ==>
      !Logs(s.log, e.during, Finite(s.offset)).truncated && Step(s, e).offset == |Contents(s.log)|
  {
    hide Slice;
    var log := Contents(s.log);
    match e
    case Append(bytes) => AppendFollows(log, s.offset, bytes);
    case Poll(during) =>
      PollFollows(log, s.offset, during);
      if s.log.None? {
        assert s.received + [] == s.received;
      }
  }

  /** Nothing is lost or repeated over any interleaving of appends and polls. */
  lemma {:induction false} FollowerHoldsThePrefix(s: State, events: seq<Event>)
    requires Follows(s)
    ensures Follows(Run(s, events))
    decreases |events|
  {
    hide Follows, Step;
    if events != [] {
      StepFollows(s, events[0]);
      FollowerHoldsThePrefix(Step(s, events[0]), events[1..]);
    }
  }

  /** From the start of any log, and a poll with no append beside it catches up completely. */
  lemma FollowFromTheStart(log: Option<Bytes>, events: seq<Event>)
    ensures var s := Run(State(log, 0, []), events);
      && s.offset <= |Contents(s.log)|
      && s.received == Contents(s.log)[..s.offset]
      && Step(s, Poll([])).received == Contents(s.log)
  {
    hide Run;
    FollowerHoldsThePrefix(State(log, 0, []), events);
    var s := Run(State(log, 0, []), events);
    StepFollows(s, Poll([]));
    assert Contents(s.log) + [] == Contents(s.log);
    assert Contents(s.log)[..|Contents(s.log)|] == Contents(s.log);
  }

  // ----- When the log is replaced -----

  /** A log shorter than the offset is read again from its first byte, and the reply says so. */
  lemma ShorterLogRestarts(log: Bytes, during: Bytes, previous: Offset)
    requires previous.Finite? ==> previous.at < 0 || previous.at > |log|
    ensures Logs(Some(log), during, previous) == Reply(log, |log|, true)
  {
    assert Slice(log + during, 0, |log|) == log;
  }

  /** After the log is replaced, the next poll leaves the follower with the new log exactly when the
      new log is shorter than the offset, or repeats everything the follower already holds. */
  lemma ReplacedLogIsFollowedIff(s: State, log: Bytes, during: Bytes)
    requires Follows(s)
    ensures Follows(Step(s.(log := Some(log)), Poll(during)))
       <==> |log| < s.offset || log[..s.offset] == s.received
    ensures Logs(Some(log), during, Finite(s.offset)).truncated <==> |log| < s.offset
  {
    var after := Step(s.(log := Some(log)), Poll(during));
    var grown := log + during;
    assert Contents(after.log) == grown && grown[..|log|] == log;
    if |log| < s.offset {
      ShorterLogRestarts(log, during, Finite(s.offset));
    } else {
      assert Slice(grown, s.offset, |log|) == log[s.offset..];
      assert after.received == s.received + log[s.offset..];
      assert log == log[..s.offset] + log[s.offset..];
      assert |s.received| == s.offset;
      assert after.received[..s.offset] == s.received;
    }
  }

  /** A missing log sends the follower back to byte zero without saying so: it still holds the log
      exactly when it held nothing, and otherwise it takes the next log for a continuation. */
  lemma MissingLogIsFollowedIff(s: State, log: Bytes)
    requires Follows(s)
    ensures var gone := Step(s.(log := None), Poll([]));
      && Logs(None, [], Finite(s.offset)) == Reply([], 0, false)
      && Step(gone.(log := Some(log)), Poll([])).received == s.received + log
      && (Follows(gone) <==> s.offset == 0)
      && (Follows(Step(gone.(log := Some(log)), Poll([]))) <==> s.offset == 0)
  {
    hide Slice;
    var gone := Step(s.(log := None), Poll([]));
    assert gone == State(None, 0, s.received) by {
      assert s.received + [] == s.received;
    }
    PollFollows(log, 0, []);
    assert log + [] == log;
    var back := Step(gone.(log := Some(log)), Poll([]));
    assert back.received == s.received + log && back.offset == |log|;
    assert |s.received| == s.offset;
    if s.offset == 0 {
      assert s.received + log == log;
    }
  }
}
