/**
 The mutable objects behind the protocol: the shared create-only store and the per-task `CityStore`
 view with its `hashes`; and the two waiting loops.
*/
module CityStores {
  import opened CollectorKeys
  import opened Collector

  /** The shared bucket: `create` stores under an unused name or raises without effect. */
  class ObjectStore {
    var objects: Objects

    constructor ()
      ensures objects == map[]
    {
      objects := map[];
    }
  }

  /** A view that can address exactly one city and date's own names. */
  class CityStore {
    const inner: ObjectStore
    const day: Day
    var hashes: map<string, Hash>

    constructor (inner: ObjectStore, day: Day)
      ensures this.inner == inner && this.day == day && hashes == map[]
    {
      this.inner := inner;
      this.day := day;
      hashes := map[];
    }

    method Exists(name: string, storeError: bool) returns (reply: Reply)
      ensures (inner.objects, reply) == ApplyOp(inner.objects, day, Probe(name), storeError)
      ensures reply == CrossCity <==> !Accepts(day, name)
    {
      if !Accepts(day, name) {
        return CrossCity;
      }
      if storeError {
        return StoreError;
      }
      return Present(name in inner.objects);
    }

    method Create(name: string, payload: Payload, storeError: bool) returns (reply: Reply)
      modifies this`hashes, inner
      ensures (inner.objects, reply) == ApplyOp(old(inner.objects), day, Op.Create(name, payload), storeError)
      ensures hashes == if reply == Stored then old(hashes)[name := Sha(payload)] else old(hashes)
      ensures reply == Stored ==> Accepts(day, name) && name !in old(inner.objects)
    {
      if !Accepts(day, name) {
        return CrossCity;
      }
      if storeError {
        return StoreError;
      }
      if name in inner.objects {
        return AlreadyExists;
      }
      inner.objects := inner.objects[name := payload];
      hashes := hashes[name := Sha(payload)];
      return Stored;
    }
  }

  // ----- waiting and the delayed books -----

  /** `wait_until` over the readings its clock will give: it returns at the first that is due. */
  method WaitUntil(due: int, readings: seq<int>) returns (used: nat)
    ensures used <= |readings|
    ensures forall i :: 0 <= i < used ==> readings[i] < due
    ensures used < |readings| ==> readings[used] >= due
  {
    used := 0;
    while used < |readings| && readings[used] < due
      invariant used <= |readings|
      invariant forall i :: 0 <= i < used ==> readings[i] < due
    {
      used := used + 1;
    }
  }

  datatype Books = Snapshot(started: int, completed: int, receipts: seq<int>) | Missed | Broken

  /** The clock readings around one order book: before its request, and its receipt stamp. */
  datatype Reading = Reading(before: int, receipt: int, ok: bool)

  ghost predicate Chronological(started: int, readings: seq<Reading>, completed: int) {
    && (forall i :: 0 <= i < |readings| ==> started <= readings[i].before <= readings[i].receipt <= completed)
  }

  /**
   `delayed_books` after its wait: one book per ticker, none requested after the deadline. On a clock
   that does not run backwards a snapshot means every receipt fell inside the window, in ticker order.
  */
  method DelayedBooks(decision: int, started: int, readings: seq<Reading>, completed: int) returns (r: Books)
    ensures r.Snapshot? ==>
              && r.started == started && r.completed == completed
              && decision + 300 * SECOND <= started <= completed <= decision + 330 * SECOND
              && |r.receipts| == |readings|
              && (forall i :: 0 <= i < |readings| ==> readings[i].ok && r.receipts[i] == readings[i].receipt)
              && (Chronological(started, readings, completed) ==>
                    forall i :: 0 <= i < |r.receipts| ==>
                      decision + 300 * SECOND <= r.receipts[i] <= decision + 330 * SECOND)
    ensures r.Missed? <==>
              || (exists k :: 0 <= k < |readings| && readings[k].before > decision + 330 * SECOND &&
                    forall j :: 0 <= j < k ==> readings[j].ok && readings[j].before <= decision + 330 * SECOND)
              || ((forall j :: 0 <= j < |readings| ==> readings[j].ok && readings[j].before <= decision + 330 * SECOND) &&
                  !(decision + 300 * SECOND <= started <= completed <= decision + 330 * SECOND))
  {
    var due := decision + 300 * SECOND;
    var deadline := due + 30 * SECOND;
    var receipts := [];
    var i := 0;
    while i < |readings|
      invariant 0 <= i <= |readings| && |receipts| == i
      invariant forall j :: 0 <= j < i ==>
                  readings[j].ok && readings[j].before <= deadline && receipts[j] == readings[j].receipt
    {
      if readings[i].before > deadline {
        return Missed;
      }
      if !readings[i].ok {
        return Broken;
      }
      receipts := receipts + [readings[i].receipt];
      i := i + 1;
    }
    if !(due <= started <= completed <= deadline) {
      return Missed;
    }
    return Snapshot(started, completed, receipts);
  }
}
