/**
 * The running dispatcher: the automation store it deletes from and the outbox
 * of publish requests it hands to the MQTT client, with the two entry points
 * (the change listener and the once-a-minute sweep) and the tick that gates
 * the sweep.
 */
module Dispatcher {
  import opened Wrappers
  import opened TimeMatch
  import opened Automation

  class AutomationService {
    /** The automation documents of the collection group, by document path. */
    var store: map<Id, Record>
    /** Every `client.publish` request issued so far, in order. */
    var outbox: seq<Message>

    function Current(): State
      reads this
    {
      State(store, outbox)
    }

    constructor (initial: map<Id, Record>)
      ensures store == initial && outbox == []
    {
      store := initial;
      outbox := [];
    }

    /**
     * `client.publish(topic, payload, { retain }, callback)`: the request is
     * issued; its delivery result reaches only the callback, which logs it.
     */
    method Publish(topic: string, payload: string, retain: bool)
      modifies this
      ensures outbox == old(outbox) + [Message(topic, payload, retain)]
      ensures store == old(store)
    {
      outbox := outbox + [Message(topic, payload, retain)];
    }

    /** `ref.delete()`: removes the document; deleting a missing document is a no-op. */
    method DeleteDocument(id: Id)
      modifies this
      ensures store == old(store) - {id}
      ensures outbox == old(outbox)
    {
      store := store - {id};
    }

    /**
     * `handleAutomationSnapshot`: evaluate one document and, when it is due,
     * publish its command and delete it if it does not repeat. The delete is
     * issued whatever becomes of the publish. `faulted` is the TypeError thrown
     * when `timezone` is unusable, or by `days.includes` when `days` has no
     * such method.
     */
    method HandleAutomationSnapshot(id: Id, doc: Record, now: Instant) returns (faulted: bool)
      modifies this
      ensures faulted <==> Decide(doc, now).Fault?
      ensures faulted ==> Current() == old(Current())
      ensures Current() == Step(old(Current()), id, doc, now)
    {
      var zone := ZoneName(doc.timezone);
      if zone.None? {
        // `moment().tz(timezone)` gave undefined or threw
        return true;
      }
      faulted := false;
      if IsMatchingTime(doc.clock, zone.value, now) {
        var included := DaysInclude(doc.days, WeekdayString(now.inZone(zone.value).weekday));
        if included.None? {
          faulted := true;
          return;
        }
        if included.value {
          var topic := doc.path;
          var payload := Payload(doc.turnOn);
          Publish(topic, payload, true);
          if ShouldDelete(doc.isRepeat) {
            DeleteDocument(id);
          }
        }
      }
    }

    /**
     * `handleAllAutomations`: evaluate every document the query returned, in
     * order; a TypeError rejects the promise and the remaining documents are
     * not evaluated. A failed query evaluates nothing.
     */
    method HandleAllAutomations(query: QueryResult, now: Instant) returns (outcome: SweepOutcome)
      modifies this
      ensures outcome == SweepOutcomeOf(query, now)
      ensures Current() == SweepState(old(Current()), query, now)
    {
      if query.QueryFailed? {
        return QueryError;
      }
      var docs := query.docs;
      ghost var s0 := Current();
      var i := 0;
      while i < |docs|
        invariant 0 <= i <= |docs|
        invariant FaultFree(docs[..i], now)
        invariant Current() == Through(s0, docs[..i], now)
      {
        var faulted := HandleAutomationSnapshot(docs[i].0, docs[i].1, now);
        if faulted {
          PassStopsAt(s0, docs, i, now);
          return Aborted(i);
        }
        PassSnoc(s0, docs, i, now);
        i := i + 1;
      }
      PassStopsAt(s0, docs, i, now);
      outcome := Completed;
    }

    /**
     * The body of the `docChanges().forEach` callback: an "added" or
     * "modified" change goes to `HandleAutomationSnapshot`, a removal is skipped.
     */
    method HandleChange(c: Change, now: Instant) returns (faulted: bool)
      modifies this
      ensures faulted <==> DispatchesChange(c.kind) && Decide(c.doc, now).Fault?
      ensures faulted ==> Current() == old(Current())
      ensures Current() == if DispatchesChange(c.kind) then Step(old(Current()), c.id, c.doc, now) else old(Current())
    {
      faulted := false;
      if DispatchesChange(c.kind) {
        faulted := HandleAutomationSnapshot(c.id, c.doc, now);
      }
    }

    /**
     * The `onSnapshot` listener: handle the batch's changes in order; a
     * TypeError escapes the listener and ends the batch.
     */
    method OnSnapshot(changes: seq<Change>, now: Instant) returns (aborted: bool)
      modifies this
      ensures aborted == BatchAborted(changes, now)
      ensures Current() == BatchState(old(Current()), changes, now)
    {
      ghost var s0 := Current();
      var i := 0;
      while i < |changes|
        invariant 0 <= i <= |changes|
        invariant FaultFree(Dispatched(changes[..i]), now)
        invariant Current() == Through(s0, Dispatched(changes[..i]), now)
      {
        var faulted := HandleChange(changes[i], now);
        if faulted {
          BatchStopsAt(s0, changes, i, now);
          return true;
        }
        BatchSnoc(s0, changes, i, now);
        i := i + 1;
      }
      BatchCompletes(s0, changes, i, now);
      aborted := false;
    }

    /**
     * The `setInterval` callback, once a second: on the tick whose seconds
     * field reads "00", run the sweep; on every other tick do nothing.
     */
    method Tick(now: Instant, query: QueryResult) returns (outcome: Option<SweepOutcome>)
      modifies this
      ensures outcome.Some? <==> now.second == 0
      ensures outcome.Some? ==> outcome.value == SweepOutcomeOf(query, now)
      ensures Current() == if now.second == 0 then SweepState(old(Current()), query, now) else old(Current())
    {
      if ShouldSweep(now) {
        var o := HandleAllAutomations(query, now);
        outcome := Some(o);
      } else {
        outcome := None;
      }
    }
  }
}
