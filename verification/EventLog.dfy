/** The Job event log: append-only, each Job's events numbered by themselves. */
module EventLog {
  import opened Types

  datatype Event = Event(
    jobId: string, attemptId: string, sequence: nat, eventType: string,
    previous: AttemptState, next: AttemptState, reasonCode: string, observedAtMs: nat)

  /** The highest event number of a Job, 0 when it has none. */
  function LastSequence(events: seq<Event>, jobId: string): (last: nat) {
    if events == [] then 0
    else
      var before := LastSequence(events[..|events| - 1], jobId);
      var event := events[|events| - 1];
      if event.jobId == jobId && event.sequence > before then event.sequence else before
  }

  function WithEvent(events: seq<Event>, event: Event): seq<Event> {
    events + [event.(sequence := LastSequence(events, event.jobId) + 1)]
  }

  function EventCount(events: seq<Event>, jobId: string): nat {
    if events == [] then 0
    else EventCount(events[..|events| - 1], jobId) + if events[|events| - 1].jobId == jobId then 1 else 0
  }

  /** Each Job's events carry the numbers 1, 2, 3, ... in the order they were appended. */
  predicate AreNumbered(events: seq<Event>) {
    forall i | 0 <= i < |events| :: events[i].sequence == EventCount(events[..i], events[i].jobId) + 1
  }

  lemma {:induction false} LastIsCount(events: seq<Event>, jobId: string)
    requires AreNumbered(events)
    ensures LastSequence(events, jobId) == EventCount(events, jobId)
  {
    if events != [] {
      var init := events[..|events| - 1];
      assert forall i | 0 <= i < |init| :: init[..i] == events[..i];
      LastIsCount(init, jobId);
    }
  }

  lemma EventKeepsNumbering(events: seq<Event>, event: Event)
    requires AreNumbered(events)
    ensures AreNumbered(WithEvent(events, event))
    ensures events <= WithEvent(events, event)
  {
    LastIsCount(events, event.jobId);
    var longer := WithEvent(events, event);
    forall i | 0 <= i < |longer| ensures longer[i].sequence == EventCount(longer[..i], longer[i].jobId) + 1 {
      assert longer[..i] == events[..i];
      assert i == |events| ==> events[..i] == events;
    }
  }

  /** In a numbered log the appended event carries the Job's new count. */
  lemma AppendedIsNumbered(events: seq<Event>, event: Event)
    ensures var longer := WithEvent(events, event);
      AreNumbered(events) ==>
        && AreNumbered(longer)
        && longer[|events|].sequence == EventCount(longer, event.jobId) == EventCount(events, event.jobId) + 1
  {
    var longer := WithEvent(events, event);
    if AreNumbered(events) {
      EventKeepsNumbering(events, event);
      assert longer[..|events|] == events;
    }
  }

  lemma {:induction false} CountGrows(events: seq<Event>, jobId: string, i: nat, k: nat)
    requires i <= k <= |events|
    ensures EventCount(events[..i], jobId) <= EventCount(events[..k], jobId)
    ensures i < k && events[i].jobId == jobId ==> EventCount(events[..i], jobId) < EventCount(events[..k], jobId)
    decreases k
  {
    if i < k {
      assert events[..k][..k - 1] == events[..k - 1];
      CountGrows(events, jobId, i, k - 1);
    }
  }

  lemma {:induction false} CountIsReached(events: seq<Event>, jobId: string, n: nat, k: nat) returns (i: nat)
    requires k <= |events| && 1 <= n <= EventCount(events[..k], jobId)
    ensures i < k && events[i].jobId == jobId && EventCount(events[..i], jobId) + 1 == n
    decreases k
  {
    assert events[..0] == [];
    assert k > 0;
    assert events[..k][..k - 1] == events[..k - 1];
    if n <= EventCount(events[..k - 1], jobId) {
      i := CountIsReached(events, jobId, n, k - 1);
    } else {
      i := k - 1;
    }
  }

  /** In a numbered log the events of a Job carry 1..n, each exactly once and in order. */
  lemma NumbersAreExactly(events: seq<Event>, jobId: string, n: nat)
    requires AreNumbered(events)
    ensures 1 <= n <= EventCount(events, jobId) <==>
      exists i :: 0 <= i < |events| && events[i].jobId == jobId && events[i].sequence == n
    ensures forall i, k :: 0 <= i < k < |events| && events[i].jobId == jobId == events[k].jobId ==>
      events[i].sequence < events[k].sequence
  {
    assert events[..|events|] == events;
    forall i | 0 <= i < |events| && events[i].jobId == jobId
      ensures 1 <= events[i].sequence <= EventCount(events, jobId) {
      CountGrows(events, jobId, i, |events|);
    }
    if 1 <= n <= EventCount(events, jobId) {
      var i := CountIsReached(events, jobId, n, |events|);
    }
    forall i, k | 0 <= i < k < |events| && events[i].jobId == jobId == events[k].jobId
      ensures events[i].sequence < events[k].sequence {
      CountGrows(events, jobId, i, k);
    }
  }

  lemma NextSequence(events: seq<Event>, event: Event)
    ensures LastSequence(WithEvent(events, event), event.jobId) == LastSequence(events, event.jobId) + 1
  {
    var longer := WithEvent(events, event);
    assert longer[..|longer| - 1] == events;
  }
}
