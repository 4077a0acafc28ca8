/** Signed host events and the replay store that forgets them (`HostEventVerifier.verify`,
    `ReplayStore.consume`). */
module HostEvents {
  import opened Values

  type EventId = string

  /** An ideal HMAC over the event id, its timestamp and the canonical payload. */
  datatype Signature = Signature(secret: Key, id: EventId, timestamp: int, payload: Record)

  datatype Refusal = Stale | InvalidSignature | Replayed

  type Seen = map<EventId, int>

  /** `DELETE ... WHERE expires_at < now`. */
  function Purge(seen: Seen, now: int): Seen {
    map id | id in seen && seen[id] >= now :: seen[id]
  }

  predicate Fresh(timestamp: int, now: int, maximumAge: int) {
    timestamp - maximumAge <= now <= timestamp + maximumAge
  }

  /** A signed event as it arrives; the verifier and the store read the clock once, together. */
  datatype Event = Event(id: EventId, timestamp: int, payload: Record, signature: Signature, now: int)

  predicate Accepts(secret: Key, maximumAge: int, seen: Seen, event: Event) {
    && Fresh(event.timestamp, event.now, maximumAge)
    && event.signature == Signature(secret, event.id, event.timestamp, event.payload)
    && event.id !in Purge(seen, event.now)
  }

  /** A refused insertion rolls its transaction back, deletions included. */
  function SeenAfter(secret: Key, maximumAge: int, seen: Seen, event: Event): Seen {
    if Accepts(secret, maximumAge, seen, event) then Purge(seen, event.now)[event.id := event.timestamp + maximumAge] else seen
  }

  class ReplayStore {
    var seen: Seen

    constructor ()
      ensures seen == map[]
    {
      seen := map[];
    }

    method Consume(id: EventId, expiresAt: int, now: int) returns (ok: bool)
      modifies this
      ensures ok <==> id !in Purge(old(seen), now)
      ensures seen == if ok then Purge(old(seen), now)[id := expiresAt] else old(seen)
    {
      var rows := Purge(seen, now);
      if id in rows { return false; }
      seen := rows[id := expiresAt];
      return true;
    }
  }

  class Verifier {
    const secret: Key
    const maximumAge: int
    const store: ReplayStore

    constructor (secret: Key, maximumAge: int, store: ReplayStore)
      ensures this.secret == secret && this.maximumAge == maximumAge && this.store == store
    {
      this.secret, this.maximumAge, this.store := secret, maximumAge, store;
    }

    method Verify(event: Event) returns (refusal: Option<Refusal>)
      modifies store
      ensures refusal == None <==> Accepts(secret, maximumAge, old(store.seen), event)
      ensures store.seen == SeenAfter(secret, maximumAge, old(store.seen), event)
      ensures refusal == Some(Stale) <==> event.now - event.timestamp > maximumAge || event.timestamp - event.now > maximumAge
      ensures refusal == Some(InvalidSignature) <==>
        Fresh(event.timestamp, event.now, maximumAge) && event.signature != Signature(secret, event.id, event.timestamp, event.payload)
    {
      var age := event.now - event.timestamp;
      if (if age < 0 then -age else age) > maximumAge { return Some(Stale); }
      if event.signature != Signature(secret, event.id, event.timestamp, event.payload) { return Some(InvalidSignature); }
      var ok := store.Consume(event.id, event.timestamp + maximumAge, event.now);
      return if ok then None else Some(Replayed);
    }
  }

  // ------------------------------------------------------------------ whole runs

  /** A run remembers the clock and every accepted event. */
  datatype System = System(seen: Seen, clock: int, accepted: seq<Event>)

  function Step(secret: Key, maximumAge: int, s: System, event: Event): System {
    System(SeenAfter(secret, maximumAge, s.seen, event), event.now,
           if Accepts(secret, maximumAge, s.seen, event) then s.accepted + [event] else s.accepted)
  }

  function Run(secret: Key, maximumAge: int, s: System, events: seq<Event>): System
    decreases |events|
  {
    if events == [] then s else Run(secret, maximumAge, Step(secret, maximumAge, s, events[0]), events[1..])
  }

  ghost predicate Monotone(clock: int, events: seq<Event>)
    decreases |events|
  {
    events == [] || (clock <= events[0].now && Monotone(events[0].now, events[1..]))
  }

  /** Some accepted event with this id is still inside its window at `now`. */
  ghost predicate Open(maximumAge: int, accepted: seq<Event>, id: EventId, now: int) {
    exists i :: 0 <= i < |accepted| && accepted[i].id == id && now <= accepted[i].timestamp + maximumAge
  }

  ghost predicate OpenHaveRows(maximumAge: int, s: System) {
    forall i :: 0 <= i < |s.accepted| && s.clock <= s.accepted[i].timestamp + maximumAge ==>
      s.accepted[i].id in s.seen && s.seen[s.accepted[i].id] == s.accepted[i].timestamp + maximumAge
  }

  ghost predicate RowsWereAccepted(maximumAge: int, seen: Seen, accepted: seq<Event>) {
    forall id :: id in seen ==>
      exists i :: 0 <= i < |accepted| && accepted[i].id == id && accepted[i].timestamp + maximumAge == seen[id]
  }

  /** A later event with the id of an earlier one came after its window. */
  ghost predicate Spaced(maximumAge: int, accepted: seq<Event>) {
    forall i, j :: 0 <= i < j < |accepted| && accepted[i].id == accepted[j].id ==>
      accepted[i].timestamp + maximumAge < accepted[j].now
  }

  /** The store holds exactly what may still be replayed: every open event has its row, and every row
      is that of an accepted event. */
  ghost predicate Inv(maximumAge: int, s: System) {
    OpenHaveRows(maximumAge, s) && RowsWereAccepted(maximumAge, s.seen, s.accepted) && Spaced(maximumAge, s.accepted)
  }

  /** Purging forgets no event that could come again: an id is refused exactly while it is open. */
  lemma PurgeKeepsOpen(maximumAge: int, s: System, id: EventId, now: int)
    requires Inv(maximumAge, s) && s.clock <= now
    ensures id in Purge(s.seen, now) <==> Open(maximumAge, s.accepted, id, now)
  {
  }

  lemma OneMoreRow(maximumAge: int, seen: Seen, accepted: seq<Event>, event: Event)
    requires RowsWereAccepted(maximumAge, seen, accepted)
    ensures RowsWereAccepted(maximumAge, Purge(seen, event.now)[event.id := event.timestamp + maximumAge], accepted + [event])
  {
    var after, more := Purge(seen, event.now)[event.id := event.timestamp + maximumAge], accepted + [event];
    forall id | id in after
      ensures exists i :: 0 <= i < |more| && more[i].id == id && more[i].timestamp + maximumAge == after[id]
    {
      if id == event.id {
        assert more[|accepted|].id == id;
      } else {
        var i :| 0 <= i < |accepted| && accepted[i].id == id && accepted[i].timestamp + maximumAge == seen[id];
        assert more[i].id == id;
      }
    }
  }

  lemma AcceptKeepsOpenRows(maximumAge: int, s: System, event: Event, t: System)
    requires OpenHaveRows(maximumAge, s) && s.clock <= event.now && !Open(maximumAge, s.accepted, event.id, event.now)
    requires t == System(Purge(s.seen, event.now)[event.id := event.timestamp + maximumAge], event.now, s.accepted + [event])
    ensures OpenHaveRows(maximumAge, t)
  {
    forall i | 0 <= i < |t.accepted| && t.clock <= t.accepted[i].timestamp + maximumAge
      ensures t.accepted[i].id in t.seen && t.seen[t.accepted[i].id] == t.accepted[i].timestamp + maximumAge
    {
      if i < |s.accepted| {
        assert t.accepted[i] == s.accepted[i];
        assert s.accepted[i].id != event.id;
      }
    }
  }

  lemma AcceptKeepsSpacing(maximumAge: int, accepted: seq<Event>, event: Event)
    requires Spaced(maximumAge, accepted) && !Open(maximumAge, accepted, event.id, event.now)
    ensures Spaced(maximumAge, accepted + [event])
  {
    var more := accepted + [event];
    forall i, j | 0 <= i < j < |more| && more[i].id == more[j].id
      ensures more[i].timestamp + maximumAge < more[j].now
    {
      assert more[i] == accepted[i];
      if j < |accepted| { assert more[j] == accepted[j]; }
    }
  }

  lemma LaterClockKeepsRows(maximumAge: int, s: System, now: int)
    requires OpenHaveRows(maximumAge, s) && s.clock <= now
    ensures OpenHaveRows(maximumAge, s.(clock := now))
  {
  }

  lemma StepKeepsInv(secret: Key, maximumAge: int, s: System, event: Event)
    requires Inv(maximumAge, s) && s.clock <= event.now
    ensures Inv(maximumAge, Step(secret, maximumAge, s, event))
  {
    if Accepts(secret, maximumAge, s.seen, event) {
      PurgeKeepsOpen(maximumAge, s, event.id, event.now);
      OneMoreRow(maximumAge, s.seen, s.accepted, event);
      AcceptKeepsOpenRows(maximumAge, s, event, Step(secret, maximumAge, s, event));
      AcceptKeepsSpacing(maximumAge, s.accepted, event);
    } else {
      LaterClockKeepsRows(maximumAge, s, event.now);
    }
  }

  lemma {:induction false} RunKeepsInv(secret: Key, maximumAge: int, s: System, events: seq<Event>)
    requires Inv(maximumAge, s) && Monotone(s.clock, events)
    ensures Inv(maximumAge, Run(secret, maximumAge, s, events))
    ensures Run(secret, maximumAge, s, events).clock >= s.clock
    decreases |events|
  {
    if events != [] {
      StepKeepsInv(secret, maximumAge, s, events[0]);
      RunKeepsInv(secret, maximumAge, Step(secret, maximumAge, s, events[0]), events[1..]);
    }
  }

  /** Main result. In any run with a monotone clock: of two accepted events with one id the later was
      accepted after the window of the earlier had closed, so no (id, timestamp) is accepted twice; and
      at any later time an event is accepted exactly if it is fresh, rightly signed, and its id is not
      open. */
  lemma NoReplay(secret: Key, maximumAge: int, clock: int, events: seq<Event>, event: Event)
    requires Monotone(clock, events)
    requires Run(secret, maximumAge, System(map[], clock, []), events).clock <= event.now
    ensures var s := Run(secret, maximumAge, System(map[], clock, []), events);
      && (forall i, j :: 0 <= i < j < |s.accepted| ==> (s.accepted[i].id, s.accepted[i].timestamp) != (s.accepted[j].id, s.accepted[j].timestamp))
      && (forall i :: 0 <= i < |s.accepted| ==> InTime(s.accepted[i], maximumAge))
      && (Accepts(secret, maximumAge, s.seen, event) <==>
            && InTime(event, maximumAge)
            && event.signature == Signature(secret, event.id, event.timestamp, event.payload)
            && !Open(maximumAge, s.accepted, event.id, event.now))
  {
    var start := System(map[], clock, []);
    RunKeepsInv(secret, maximumAge, start, events);
    var s := Run(secret, maximumAge, start, events);
    PurgeKeepsOpen(maximumAge, s, event.id, event.now);
    AcceptedWereFresh(secret, maximumAge, start, events);
  }

  /** Neither too old nor from too far in the future. */
  predicate InTime(event: Event, maximumAge: int) {
    event.now - event.timestamp <= maximumAge && event.timestamp - event.now <= maximumAge
  }

  ghost predicate AllFresh(maximumAge: int, accepted: seq<Event>) {
    forall i :: 0 <= i < |accepted| ==> Fresh(accepted[i].timestamp, accepted[i].now, maximumAge)
  }

  lemma {:induction false} AcceptedWereFresh(secret: Key, maximumAge: int, s: System, events: seq<Event>)
    requires AllFresh(maximumAge, s.accepted)
    ensures AllFresh(maximumAge, Run(secret, maximumAge, s, events).accepted)
    decreases |events|
  {
    if events != [] { AcceptedWereFresh(secret, maximumAge, Step(secret, maximumAge, s, events[0]), events[1..]); }
  }

  /** After a successful consume the store keeps only open windows, so it stays as small as the
      traffic of one window. */
  lemma StoreStaysSmall(secret: Key, maximumAge: int, seen: Seen, event: Event)
    requires Accepts(secret, maximumAge, seen, event)
    ensures forall id :: id in SeenAfter(secret, maximumAge, seen, event) ==>
      event.now <= SeenAfter(secret, maximumAge, seen, event)[id]
  {
  }
}
