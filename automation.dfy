/**
 * An automation document and the evaluate-and-dispatch decision taken for it
 * (the body shared by `handleAutomationSnapshot` and the per-document callback
 * of `handleAllAutomations`), together with the pure specification of a pass
 * over a sequence of documents.
 */
module Automation {
  import opened Wrappers
  import opened JsValues
  import opened TimeMatch

  /** The document path of an automation document. */
  type Id = string

  /**
   * The `days` field, as seen by `days.includes(…)`: an array (Array.prototype.includes,
   * which compares by SameValueZero), a string (String.prototype.includes, a
   * substring test), or a value with no `includes` method (absent, null, a
   * number, a boolean, a map), on which the call throws a TypeError.
   */
  datatype DaysField = Array(elements: seq<JsValue>) | Text(text: string) | NoIncludes

  /** The fields of an automation document that the dispatcher reads. */
  datatype Record = Record(
    path: string,          // MQTT topic
    turnOn: JsValue,
    clock: Option<Clock>,  // None: a string moment cannot parse as "HH:mm"
    timezone: JsValue,     // an IANA zone name when usable
    days: DaysField,
    isRepeat: JsValue)

  /** One `client.publish(topic, payload, { retain })` request. */
  datatype Message = Message(topic: string, payload: string, retain: bool)

  /** The outcome of evaluating one document. */
  datatype Decision =
    | Skip                                  // not due: nothing happens
    | Fire(message: Message, delete: bool)  // publish, and delete the document when `delete`
    | Fault                                 // a TypeError: unusable `timezone`, or `days` without `includes`

  /** The store and the outbox of publish requests. */
  datatype State = State(store: map<Id, Record>, outbox: seq<Message>)

  /** `days.includes(s)`; None when the call throws. */
  function DaysInclude(days: DaysField, s: string): (r: Option<bool>)
    ensures r.None? <==> days.NoIncludes?
    ensures days.Array? ==> (r == Some(true) <==> exists i :: 0 <= i < |days.elements| && days.elements[i] == Str(s))
    ensures days.Text? ==> (r == Some(true) <==> Contains(days.text, s))
  {
    match days
    case Array(es) => Some(Str(s) in es)
    case Text(t) => Some(Contains(t, s))
    case NoIncludes => None
  }

  /** `data.turnOn ? "1" : "0"`. */
  function Payload(turnOn: JsValue): (p: string)
    ensures p == "1" <==> Truthy(turnOn)
    ensures p == "0" <==> !Truthy(turnOn)
  {
    if Truthy(turnOn) then "1" else "0"
  }

  /** `data.isRepeat === false`. */
  function ShouldDelete(isRepeat: JsValue): (r: bool)
    ensures r <==> isRepeat.Bool? && !isRepeat.b
    ensures r ==> !Truthy(isRepeat)
  {
    IsStrictlyFalse(isRepeat)
  }

  /**
   * The zone `moment().tz(timezone)` switches to. On a falsy `timezone`
   * (absent, null, "", 0, false) `tz` is a getter and returns undefined, and on
   * a truthy non-string it throws; in both cases `isMatchingTime` throws a
   * TypeError (`currentMoment.isSame` on undefined). None stands for that.
   */
  function ZoneName(timezone: JsValue): (z: Option<string>)
    ensures z.Some? <==> timezone.Str? && timezone.s != ""
    ensures z.Some? ==> z.value == timezone.s && Truthy(timezone)
    ensures !Truthy(timezone) ==> z.None?
  {
    match timezone
    case Str(name) => if name != "" then Some(name) else None
    case _ => None
  }

  /** The time test of the dispatch routine, on a usable zone. */
  predicate TimeMatches(r: Record, now: Instant) {
    ZoneName(r.timezone).Some? && IsMatchingTime(r.clock, ZoneName(r.timezone).value, now)
  }

  /** The decision for one document at one instant. */
  function Decide(r: Record, now: Instant): (d: Decision)
    ensures ZoneName(r.timezone).None? ==> d == Fault
    ensures ZoneName(r.timezone).Some? && !TimeMatches(r, now) ==> d == Skip
    ensures d.Fault? <==> ZoneName(r.timezone).None? || (TimeMatches(r, now) && r.days.NoIncludes?)
    ensures d.Fire? ==> TimeMatches(r, now)
    ensures d.Fire? ==> d.message.topic == r.path && d.message.retain
    ensures d.Fire? ==> (d.message.payload == "1" <==> Truthy(r.turnOn))
    ensures d.Fire? ==> (d.message.payload == "0" <==> !Truthy(r.turnOn))
    ensures d.Fire? ==> (d.delete <==> r.isRepeat == Bool(false))
  {
    match ZoneName(r.timezone)
    case None => Fault
    case Some(zone) =>
      if !IsMatchingTime(r.clock, zone, now) then Skip
      else match DaysInclude(r.days, WeekdayString(now.inZone(zone).weekday))
        case None => Fault
        case Some(false) => Skip
        case Some(true) => Fire(Message(r.path, Payload(r.turnOn), true), ShouldDelete(r.isRepeat))
  }

  /** A document without a usable `timezone` throws on every evaluation, whatever the time. */
  lemma UnusableTimezoneAlwaysFaults(r: Record, now: Instant)
    requires !Truthy(r.timezone) || !r.timezone.Str?
    ensures Decide(r, now) == Fault
  {
  }

  /** Does the document fire and get deleted? */
  predicate Deletes(r: Record, now: Instant) {
    Decide(r, now).Fire? && Decide(r, now).delete
  }

  /** The messages a decision publishes. */
  function Published(d: Decision): seq<Message> {
    if d.Fire? then [d.message] else []
  }

  /**
   * A document fires exactly when the time matches and the zone-local ISO
   * weekday, as a one-digit string, is included in `days`.
   */
  lemma FiresIffTimeAndWeekdayMatch(r: Record, now: Instant)
    ensures Decide(r, now).Fire? <==>
      TimeMatches(r, now) &&
      var w := WeekdayString(now.inZone(ZoneName(r.timezone).value).weekday);
      (r.days.Array? && Str(w) in r.days.elements) || (r.days.Text? && w[0] in r.days.text)
  {
    if TimeMatches(r, now) && r.days.Text? {
      var w := WeekdayString(now.inZone(ZoneName(r.timezone).value).weekday);
      assert [w[0]] == w;
      ContainsOneChar(r.days.text, w[0]);
    }
  }

  /** An array of numbers never matches: the weekday is compared as a string. */
  lemma NumericDaysNeverFire(r: Record, now: Instant)
    requires r.days.Array?
    requires forall i :: 0 <= i < |r.days.elements| ==> r.days.elements[i].Num?
    ensures !Decide(r, now).Fire?
  {
  }

  /** A document with `isRepeat` true, absent or any value other than `false` is never deleted. */
  lemma OnlyStrictFalseDeletes(r: Record, now: Instant)
    ensures Deletes(r, now) <==> Decide(r, now).Fire? && r.isRepeat == Bool(false)
    ensures r.isRepeat in {Bool(true), Undefined, Null, Num(0), Str("")} ==> !Deletes(r, now)
  {
  }

  /** The effect of evaluating one document on the store and the outbox. */
  function Step(s: State, id: Id, r: Record, now: Instant): (t: State)
    ensures s.outbox <= t.outbox && |t.outbox| <= |s.outbox| + 1
    ensures s.store.Keys - {id} <= t.store.Keys <= s.store.Keys
  {
    State(if Deletes(r, now) then s.store - {id} else s.store,
          s.outbox + Published(Decide(r, now)))
  }

  /** A document that is not due, or on which `includes` threw, changes nothing. */
  lemma NotFiredChangesNothing(s: State, id: Id, r: Record, now: Instant)
    requires !Decide(r, now).Fire?
    ensures Step(s, id, r, now) == s
  {
  }

  /** A fired document publishes one retained message and is deleted exactly when `isRepeat === false`. */
  lemma FiredStep(s: State, id: Id, r: Record, now: Instant)
    requires Decide(r, now).Fire?
    ensures var t := Step(s, id, r, now);
      t.outbox == s.outbox + [Message(r.path, Payload(r.turnOn), true)] &&
      (id in t.store <==> id in s.store && r.isRepeat != Bool(false)) &&
      (forall k :: k in s.store && k != id ==> k in t.store && t.store[k] == s.store[k])
  {
  }

  // ---------------------------------------------------------------------
  // A pass over a sequence of documents (a query result or a change batch)
  // ---------------------------------------------------------------------

  type Doc = (Id, Record)

  /**
   * How many documents a pass evaluates before a TypeError ends it: the index
   * of the first faulting document, or all of them.
   */
  function Evaluated(docs: seq<Doc>, now: Instant): (n: nat)
    ensures n <= |docs|
    ensures forall i :: 0 <= i < n ==> !Decide(docs[i].1, now).Fault?
    ensures n < |docs| ==> Decide(docs[n].1, now).Fault?
  {
    if docs == [] then 0
    else if Decide(docs[0].1, now).Fault? then 0
    else 1 + Evaluated(docs[1..], now)
  }

  /** No document of `docs` throws. */
  predicate FaultFree(docs: seq<Doc>, now: Instant) {
    forall j :: 0 <= j < |docs| ==> !Decide(docs[j].1, now).Fault?
  }

  /** The messages published by evaluating one document. */
  function Emitted(d: Doc, now: Instant): seq<Message> {
    Published(Decide(d.1, now))
  }

  /** The messages published by evaluating every document, in order. */
  function DueMessages(docs: seq<Doc>, now: Instant): (ms: seq<Message>)
    ensures |ms| <= |docs|
  {
    if docs == [] then []
    else DueMessages(docs[..|docs| - 1], now) + Emitted(docs[|docs| - 1], now)
  }

  /** The ids deleted by evaluating every document. */
  function DeletedIds(docs: seq<Doc>, now: Instant): (ids: set<Id>)
    ensures |ids| <= |docs|
  {
    if docs == [] then {}
    else
      var last := docs[|docs| - 1];
      DeletedIds(docs[..|docs| - 1], now) + (if Deletes(last.1, now) then {last.0} else {})
  }

  /** A message is published iff some document fires with it. */
  lemma {:induction false} DueMessagesMembership(docs: seq<Doc>, now: Instant, m: Message)
    ensures m in DueMessages(docs, now) <==>
      exists i :: 0 <= i < |docs| && Decide(docs[i].1, now).Fire? && Decide(docs[i].1, now).message == m
  {
    if docs != [] {
      var init := docs[..|docs| - 1];
      DueMessagesMembership(init, now, m);
      assert forall i :: 0 <= i < |init| ==> init[i] == docs[i];
      var last := Decide(docs[|docs| - 1].1, now);
      if m in DueMessages(docs, now) && m !in DueMessages(init, now) {
        assert m in Published(last);
        assert last.Fire? && last.message == m;
      }
    }
  }

  /** An id is deleted iff some document with that id fires with `isRepeat === false`. */
  lemma {:induction false} DeletedIdsMembership(docs: seq<Doc>, now: Instant, id: Id)
    ensures id in DeletedIds(docs, now) <==>
      exists i :: 0 <= i < |docs| && docs[i].0 == id && Deletes(docs[i].1, now)
  {
    if docs != [] {
      var init := docs[..|docs| - 1];
      DeletedIdsMembership(init, now, id);
      assert forall i :: 0 <= i < |init| ==> init[i] == docs[i];
    }
  }

  lemma TakeAll<T>(xs: seq<T>)
    ensures xs[..|xs|] == xs
  {
  }

  /** What a sequence that starts with `xs + [x]` holds up to and at index `|xs|`. */
  lemma PrefixParts<T>(xs: seq<T>, x: T, ys: seq<T>)
    requires xs + [x] <= ys
    ensures |xs| < |ys| && ys[..|xs|] == xs && ys[|xs|] == x
  {
    assert ys[..|xs|] == (xs + [x])[..|xs|];
  }

  lemma SnocParts<T>(xs: seq<T>, x: T)
    ensures (xs + [x])[..|xs|] == xs && (xs + [x])[|xs|] == x
  {
  }

  lemma SplitLast<T>(a: seq<T>, b: seq<T>)
    requires b != []
    ensures a + b == (a + b[..|b| - 1]) + [b[|b| - 1]]
  {
  }

  lemma ConcatAssociative<T>(p: seq<T>, q: seq<T>, r: seq<T>)
    ensures (p + q) + r == p + (q + r)
  {
  }

  /** One more document adds its own messages at the end. */
  lemma DueMessagesSnoc(docs: seq<Doc>, d: Doc, now: Instant)
    ensures DueMessages(docs + [d], now) == DueMessages(docs, now) + Emitted(d, now)
  {
    SnocParts(docs, d);
  }

  /** Evaluating two runs of documents back to back publishes the two runs' messages in order. */
  lemma {:induction false} DueMessagesAppend(a: seq<Doc>, b: seq<Doc>, now: Instant)
    ensures DueMessages(a + b, now) == DueMessages(a, now) + DueMessages(b, now)
    decreases |b|
  {
    if b == [] {
      assert a + b == a;
    } else {
      var b', x := b[..|b| - 1], b[|b| - 1];
      DueMessagesAppend(a, b', now);
      SplitLast(a, b);
      DueMessagesSnoc(a + b', x, now);
      DueMessagesSnoc(b', x, now);
      ConcatAssociative(DueMessages(a, now), DueMessages(b', now), Emitted(x, now));
    }
  }

  /** The state after evaluating every one of `docs`. */
  function Through(s: State, docs: seq<Doc>, now: Instant): State {
    State(s.store - DeletedIds(docs, now), s.outbox + DueMessages(docs, now))
  }

  /** Evaluating one more document is one more `Step`. */
  lemma ThroughSnoc(s: State, docs: seq<Doc>, d: Doc, now: Instant)
    ensures Through(s, docs + [d], now) == Step(Through(s, docs, now), d.0, d.1, now)
  {
    var e := docs + [d];
    SnocParts(docs, d);
    DueMessagesSnoc(docs, d, now);
    var gone := if Deletes(d.1, now) then {d.0} else {};
    assert DeletedIds(e, now) == DeletedIds(docs, now) + gone;
    MapMinusUnion(s.store, DeletedIds(docs, now), gone);
  }

  /** Removing two sets of keys one after the other removes their union. */
  lemma MapMinusUnion<K, V>(m: map<K, V>, a: set<K>, b: set<K>)
    ensures m - (a + b) == (m - a) - b
  {
  }

  /** `Evaluated` is the first fault index, wherever that is established. */
  lemma EvaluatedAt(docs: seq<Doc>, k: nat, now: Instant)
    requires k <= |docs|
    requires forall j :: 0 <= j < k ==> !Decide(docs[j].1, now).Fault?
    requires k < |docs| ==> Decide(docs[k].1, now).Fault?
    ensures Evaluated(docs, now) == k
  {
  }

  /** The state after a pass over the documents that ends at the first TypeError. */
  function Pass(s: State, docs: seq<Doc>, now: Instant): State {
    Through(s, docs[..Evaluated(docs, now)], now)
  }

  /** A pass whose first fault is at `k` (or that has none, `k == |docs|`) ends in the state after `docs[..k]`. */
  lemma PassStopsAt(s: State, docs: seq<Doc>, k: nat, now: Instant)
    requires k <= |docs|
    requires FaultFree(docs[..k], now)
    requires k < |docs| ==> Decide(docs[k].1, now).Fault?
    ensures Evaluated(docs, now) == k
    ensures Pass(s, docs, now) == Through(s, docs[..k], now)
  {
    assert forall j :: 0 <= j < k ==> docs[..k][j] == docs[j];
    EvaluatedAt(docs, k, now);
  }

  /** Evaluating document `i` without a TypeError extends the pass by its step. */
  lemma PassSnoc(s: State, docs: seq<Doc>, i: nat, now: Instant)
    requires i < |docs|
    requires FaultFree(docs[..i], now)
    requires !Decide(docs[i].1, now).Fault?
    ensures FaultFree(docs[..i + 1], now)
    ensures Through(s, docs[..i + 1], now) == Step(Through(s, docs[..i], now), docs[i].0, docs[i].1, now)
  {
    assert docs[..i + 1] == docs[..i] + [docs[i]];
    ThroughSnoc(s, docs[..i], docs[i], now);
  }

  // ---------------------------------------------------------------------
  // The sweep (`handleAllAutomations`)
  // ---------------------------------------------------------------------

  /** The answer of the collection-group query. */
  datatype QueryResult = QueryFailed | Documents(docs: seq<Doc>)

  datatype SweepOutcome =
    | QueryError      // the query failed: the `catch` logs it
    | Completed       // every document was evaluated
    | Aborted(at: nat) // the document at this index threw; later ones were not evaluated

  function SweepOutcomeOf(query: QueryResult, now: Instant): (o: SweepOutcome)
    ensures o == QueryError <==> query.QueryFailed?
    ensures o.Aborted? ==> o.at < |query.docs| && Decide(query.docs[o.at].1, now).Fault?
    ensures o == Completed ==> forall i :: 0 <= i < |query.docs| ==> !Decide(query.docs[i].1, now).Fault?
  {
    match query
    case QueryFailed => QueryError
    case Documents(docs) =>
      var n := Evaluated(docs, now);
      if n < |docs| then Aborted(n) else Completed
  }

  function SweepState(s: State, query: QueryResult, now: Instant): State {
    match query
    case QueryFailed => s
    case Documents(docs) => Pass(s, docs, now)
  }

  /** A failed query evaluates nothing. */
  lemma FailedQueryChangesNothing(s: State, now: Instant)
    ensures SweepState(s, QueryFailed, now) == s && SweepOutcomeOf(QueryFailed, now) == QueryError
  {
  }

  /** `docs` lists exactly the documents of `store` (the collection-group query answered fully). */
  ghost predicate Enumerates(docs: seq<Doc>, store: map<Id, Record>) {
    && (forall i :: 0 <= i < |docs| ==> docs[i].0 in store && store[docs[i].0] == docs[i].1)
    && (forall id :: id in store ==> exists i :: 0 <= i < |docs| && docs[i].0 == id)
  }

  /**
   * A sweep over the whole store that meets no TypeError publishes the message
   * of every due document and keeps exactly the documents that are not deleted.
   */
  lemma SweepOfWholeStore(s: State, docs: seq<Doc>, now: Instant)
    requires Enumerates(docs, s.store)
    requires Evaluated(docs, now) == |docs|
    ensures var t := SweepState(s, Documents(docs), now);
      && (forall id :: id in s.store && Decide(s.store[id], now).Fire? ==>
            Decide(s.store[id], now).message in t.outbox[|s.outbox|..])
      && (forall id :: id in t.store <==> id in s.store && !Deletes(s.store[id], now))
      && (forall id :: id in t.store ==> t.store[id] == s.store[id])
  {
    assert docs[..|docs|] == docs;
    var t := SweepState(s, Documents(docs), now);
    assert t.outbox[|s.outbox|..] == DueMessages(docs, now);
    forall id | id in s.store && Decide(s.store[id], now).Fire?
      ensures Decide(s.store[id], now).message in t.outbox[|s.outbox|..]
    {
      var i :| 0 <= i < |docs| && docs[i].0 == id;
      DueMessagesMembership(docs, now, Decide(s.store[id], now).message);
    }
    forall id
      ensures id in t.store <==> id in s.store && !Deletes(s.store[id], now)
    {
      DeletedIdsMembership(docs, now, id);
      if id in s.store {
        var i :| 0 <= i < |docs| && docs[i].0 == id;
      }
    }
  }

  /**
   * With deletes applied at once, a second sweep in the same minute deletes
   * nothing: no document left in the store is a due one-shot automation.
   */
  lemma SecondSweepDeletesNothing(s: State, docs: seq<Doc>, docs2: seq<Doc>, now: Instant)
    requires Enumerates(docs, s.store)
    requires Evaluated(docs, now) == |docs|
    requires Enumerates(docs2, SweepState(s, Documents(docs), now).store)
    ensures DeletedIds(docs2, now) == {}
  {
    SweepOfWholeStore(s, docs, now);
    forall id ensures id !in DeletedIds(docs2, now) {
      DeletedIdsMembership(docs2, now, id);
    }
  }

  /**
   * There is no per-minute claim: a due repeating document that a change
   * event has just fired is published again by a sweep in the same minute.
   */
  lemma RepeatingRecordFiresOnBothPaths(s: State, id: Id, r: Record, docs: seq<Doc>, now: Instant)
    requires Decide(r, now).Fire? && !Decide(r, now).delete
    requires id in s.store && s.store[id] == r
    requires Enumerates(docs, Step(s, id, r, now).store)
    requires Evaluated(docs, now) == |docs|
    ensures var afterChange := Step(s, id, r, now);
      && afterChange.outbox == s.outbox + [Decide(r, now).message]
      && Decide(r, now).message in SweepState(afterChange, Documents(docs), now).outbox[|afterChange.outbox|..]
  {
    SweepOfWholeStore(Step(s, id, r, now), docs, now);
  }

  // ---------------------------------------------------------------------
  // The change watcher (`onSnapshot` callback)
  // ---------------------------------------------------------------------

  datatype ChangeKind = Added | Modified | Removed

  datatype Change = Change(kind: ChangeKind, id: Id, doc: Record)

  /** `change.type === "added" || change.type === "modified"`. */
  function DispatchesChange(kind: ChangeKind): (r: bool)
    ensures r <==> !kind.Removed?
  {
    kind == Added || kind == Modified
  }

  /** The documents of a batch that are handed to the dispatch routine, in order. */
  function Dispatched(changes: seq<Change>): (ds: seq<Doc>)
    ensures |ds| <= |changes|
  {
    if changes == [] then []
    else
      var c := changes[|changes| - 1];
      Dispatched(changes[..|changes| - 1]) + (if DispatchesChange(c.kind) then [(c.id, c.doc)] else [])
  }

  /** A document is dispatched iff an "added" or "modified" change in the batch carries it. */
  lemma {:induction false} DispatchedMembership(changes: seq<Change>, d: Doc)
    ensures d in Dispatched(changes) <==>
      exists j :: 0 <= j < |changes| && DispatchesChange(changes[j].kind) && d == (changes[j].id, changes[j].doc)
  {
    if changes != [] {
      var init := changes[..|changes| - 1];
      DispatchedMembership(init, d);
      assert forall j :: 0 <= j < |init| ==> init[j] == changes[j];
    }
  }

  /** The documents dispatched from a prefix of a batch are a prefix of those of the batch. */
  lemma {:induction false} DispatchedPrefix(changes: seq<Change>, k: nat)
    requires k <= |changes|
    ensures Dispatched(changes[..k]) <= Dispatched(changes)
    decreases |changes|
  {
    if k < |changes| {
      var init := changes[..|changes| - 1];
      DispatchedPrefix(init, k);
      assert init[..k] == changes[..k];
    } else {
      assert changes[..k] == changes;
    }
  }

  /** Handling one more change of a batch dispatches its document, unless it is a removal. */
  lemma DispatchedSnoc(changes: seq<Change>, i: nat)
    requires i < |changes|
    ensures var c := changes[i];
      Dispatched(changes[..i + 1]) ==
        Dispatched(changes[..i]) + (if DispatchesChange(c.kind) then [(c.id, c.doc)] else [])
  {
    assert changes[..i + 1][..i] == changes[..i];
  }

  /**
   * When the dispatched documents of the first `i` changes are fault-free and
   * change `i` is dispatched and faults, the batch's pass stops right there.
   */
  lemma BatchStopsAt(s: State, changes: seq<Change>, i: nat, now: Instant)
    requires i < |changes|
    requires FaultFree(Dispatched(changes[..i]), now)
    requires DispatchesChange(changes[i].kind) && Decide(changes[i].doc, now).Fault?
    ensures BatchAborted(changes, now)
    ensures BatchState(s, changes, now) == Through(s, Dispatched(changes[..i]), now)
  {
    var ds := Dispatched(changes[..i]);
    var all := Dispatched(changes);
    DispatchedSnoc(changes, i);
    DispatchedPrefix(changes, i + 1);
    PrefixParts(ds, (changes[i].id, changes[i].doc), all);
    PassStopsAt(s, all, |ds|, now);
  }

  /** Handling change `i` without a TypeError extends the batch's pass by that change's step, if any. */
  lemma BatchSnoc(s: State, changes: seq<Change>, i: nat, now: Instant)
    requires i < |changes|
    requires FaultFree(Dispatched(changes[..i]), now)
    requires !(DispatchesChange(changes[i].kind) && Decide(changes[i].doc, now).Fault?)
    ensures FaultFree(Dispatched(changes[..i + 1]), now)
    ensures var c, before := changes[i], Through(s, Dispatched(changes[..i]), now);
      Through(s, Dispatched(changes[..i + 1]), now) ==
        if DispatchesChange(c.kind) then Step(before, c.id, c.doc, now) else before
  {
    var c, ds := changes[i], Dispatched(changes[..i]);
    DispatchedSnoc(changes, i);
    if DispatchesChange(c.kind) {
      ThroughSnoc(s, ds, (c.id, c.doc), now);
      assert Dispatched(changes[..i + 1]) == ds + [(c.id, c.doc)];
    } else {
      assert Dispatched(changes[..i + 1]) == ds;
    }
  }

  /** A batch whose dispatched documents never fault is handled completely. */
  lemma BatchCompletes(s: State, changes: seq<Change>, i: nat, now: Instant)
    requires i == |changes|
    requires FaultFree(Dispatched(changes[..i]), now)
    ensures !BatchAborted(changes, now)
    ensures BatchState(s, changes, now) == Through(s, Dispatched(changes[..i]), now)
  {
    TakeAll(changes);
    var all := Dispatched(changes);
    TakeAll(all);
    PassStopsAt(s, all, |all|, now);
  }

  /** A batch made only of removals dispatches nothing. */
  lemma {:induction false} RemovalsDispatchNothing(changes: seq<Change>)
    requires forall i :: 0 <= i < |changes| ==> changes[i].kind == Removed
    ensures Dispatched(changes) == []
  {
    if changes != [] {
      RemovalsDispatchNothing(changes[..|changes| - 1]);
    }
  }

  /** The state after the listener has handled a batch of changes. */
  function BatchState(s: State, changes: seq<Change>, now: Instant): State {
    Pass(s, Dispatched(changes), now)
  }

  /** Did a TypeError end the batch before every dispatched change was handled? */
  function BatchAborted(changes: seq<Change>, now: Instant): (b: bool)
    ensures b ==> !FaultFree(Dispatched(changes), now)
    ensures !FaultFree(Dispatched(changes), now) ==> b
  {
    Evaluated(Dispatched(changes), now) < |Dispatched(changes)|
  }
}
