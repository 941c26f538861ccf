/** getevents: the hourly ingestion of the events dashboard into the `events`
    collection. The fetched lists are concatenated, every record is cut down to
    `EVENT_KEYS` and stored under its `eventNoSqlId` by one batch of whole-document
    `set` writes, committed at once. A record whose id `doc` refuses, or whose
    cut-down copy holds `undefined` (which `set` refuses under the default
    Firestore settings), makes the run throw before the commit. */
module Ingestion {
  import opened JsValues
  import opened Projectors

  const EventKeys: seq<string> := [
    "eventNoSqlId", "campusName", "eventName", "organizationName",
    "organizationUri", "description", "location", "isVirtualEventLink",
    "hasVirtualEventIntegration", "photoUri", "startDateTimeUtc", "endDateTimeUtc"
  ]

  /** The fetched dashboard data. A list is `None` when the property is absent
      or falsy, in which case it contributes nothing. */
  datatype Payload = Payload(upcomingEvents: Option<seq<Obj>>, currentEvents: Option<seq<Obj>>)

  function Listed(l: Option<seq<Obj>>): seq<Obj>
  {
    if l.Some? then l.value else []
  }

  /** The ingestion sequence: `upcomingEvents`, then `currentEvents`. */
  function Collected(p: Payload): seq<Obj>
  {
    Listed(p.upcomingEvents) + Listed(p.currentEvents)
  }

  /** Every upcoming record comes first, in its order, then every current
      record; a list that is absent contributes nothing. */
  lemma CollectedOrder(p: Payload)
    ensures var up := Listed(p.upcomingEvents);
      var cur := Listed(p.currentEvents);
      && |Collected(p)| == |up| + |cur|
      && (forall i :: 0 <= i < |up| ==> Collected(p)[i] == up[i])
      && (forall i :: 0 <= i < |cur| ==> Collected(p)[|up| + i] == cur[i])
    ensures p.upcomingEvents.None? ==> Collected(p) == Listed(p.currentEvents)
    ensures p.currentEvents.None? ==> Collected(p) == Listed(p.upcomingEvents)
  {
    assert Listed(None) == [];
  }

  /** The id `eventsRef.doc(event.eventNoSqlId)` accepts: a non-empty string
      naming one document of the collection. Anything else makes the call throw. */
  function IdOf(event: Obj): Option<string>
  {
    match Get(event, "eventNoSqlId")
    case Some(Str(s)) => if s != "" && '/' !in s then Some(s) else None
    case _ => None
  }

  /** An id is accepted exactly when `eventNoSqlId` is a non-empty string
      without a `/`, and the accepted id is that string. */
  lemma IdOfAccepts(event: Obj)
    ensures IdOf(event).Some? <==>
              && Get(event, "eventNoSqlId").Some? && Get(event, "eventNoSqlId").value.Str?
              && Get(event, "eventNoSqlId").value.s != "" && '/' !in Get(event, "eventNoSqlId").value.s
    ensures IdOf(event).Some? ==> Get(event, "eventNoSqlId") == Some(Str(IdOf(event).value))
  {
  }

  /** What `set` accepts: a document with no field holding `undefined`. */
  predicate NoUndefined(doc: Obj)
  {
    forall k :: k in doc ==> doc[k].Some?
  }

  /** The record defines every one of `keys`. */
  predicate Complete(keys: seq<string>, event: Obj)
  {
    forall k :: k in keys ==> Get(event, k).Some?
  }

  /** The cut-down copy of a record is free of `undefined` exactly when the
      record defines every whitelisted key. */
  lemma NoUndefinedIffComplete(keys: seq<string>, event: Obj)
    ensures NoUndefined(Whitelist(keys, event)) <==> Complete(keys, event)
  {
    var w := Whitelist(keys, event);
    if NoUndefined(w) {
      forall k | k in keys ensures Get(event, k).Some? {
        assert k in w;
      }
    }
  }

  /** A record the loop gets past: `doc` accepts its id and `set` accepts its
      cut-down copy. */
  predicate Accepted(keys: seq<string>, event: Obj)
  {
    IdOf(event).Some? && Complete(keys, event)
  }

  /** One `batch.set(eventRef, cleaned)`. */
  datatype Write = Write(id: string, doc: Obj)

  /** The batch the loop builds, or the position of the record that made it throw. */
  datatype Batch = Writes(ws: seq<Write>) | Throws(index: nat)

  /** The write the loop issues for a record with an acceptable id: the record
      cut down to `keys` (`EVENT_KEYS`), stored under that id. */
  function WriteFor(keys: seq<string>, event: Obj): Write
    requires IdOf(event).Some?
  {
    Write(IdOf(event).value, Whitelist(keys, event))
  }

  /** Each of the first `n` records is accepted. */
  predicate ValidUpTo(keys: seq<string>, events: seq<Obj>, n: nat)
    requires n <= |events|
  {
    forall i :: 0 <= i < n ==> Accepted(keys, events[i])
  }

  /** Every record has an acceptable id and defines every `EVENT_KEYS` field. */
  predicate AllAccepted(events: seq<Obj>)
  {
    ValidUpTo(EventKeys, events, |events|)
  }

  /** The loop after its first `n` iterations, each record cut down to `keys`:
      stopped at the first record that is not accepted, or one write per
      record so far. */
  function BatchOf(keys: seq<string>, events: seq<Obj>, n: nat): Batch
    requires n <= |events|
  {
    if n == 0 then Writes([])
    else
      match BatchOf(keys, events, n - 1)
      case Throws(i) => Throws(i)
      case Writes(ws) =>
        if Accepted(keys, events[n - 1]) then Writes(ws + [WriteFor(keys, events[n - 1])])
        else Throws(n - 1)
  }

  /** The whole loop. */
  function BuildBatch(events: seq<Obj>): Batch
  {
    BatchOf(EventKeys, events, |events|)
  }

  /** The loop builds one write per record, in record order, each storing the
      record's `EVENT_KEYS` under its id, exactly when every record is accepted;
      otherwise it throws at the first record that is not. */
  lemma BuildBatchSpec(events: seq<Obj>)
    ensures BuildBatch(events).Writes? <==> AllAccepted(events)
    ensures BuildBatch(events).Writes? ==>
              && |BuildBatch(events).ws| == |events|
              && forall i :: 0 <= i < |events| ==>
                   && IdOf(events[i]).Some?
                   && BuildBatch(events).ws[i] == Write(IdOf(events[i]).value, Whitelist(EventKeys, events[i]))
    ensures BuildBatch(events).Throws? ==>
              var i := BuildBatch(events).index;
              i < |events| && !Accepted(EventKeys, events[i]) && ValidUpTo(EventKeys, events, i)
  {
    BatchCompletes(EventKeys, events, |events|);
    BatchStopsAtFirst(EventKeys, events, |events|);
    if AllAccepted(events) {
      BatchWrites(EventKeys, events, |events|);
    }
  }

  /** When the first `n` records are accepted the loop gets through them,
      with one write per record, in record order. */
  lemma {:induction false} BatchWrites(keys: seq<string>, events: seq<Obj>, n: nat)
    requires n <= |events| && ValidUpTo(keys, events, n)
    ensures BatchOf(keys, events, n).Writes?
    ensures |BatchOf(keys, events, n).ws| == n
    ensures forall i :: 0 <= i < n ==> BatchOf(keys, events, n).ws[i] == WriteFor(keys, events[i])
  {
    if n > 0 {
      assert ValidUpTo(keys, events, n - 1);
      BatchWrites(keys, events, n - 1);
      var ws := BatchOf(keys, events, n - 1).ws;
      var last := WriteFor(keys, events[n - 1]);
      assert BatchOf(keys, events, n) == Writes(ws + [last]);
      forall i | 0 <= i < n
        ensures (ws + [last])[i] == WriteFor(keys, events[i])
      {
        if i < n - 1 {
          assert (ws + [last])[i] == ws[i];
        }
      }
    }
  }

  /** The loop gets through the first `n` records exactly when they are all
      accepted. */
  lemma {:induction false} BatchCompletes(keys: seq<string>, events: seq<Obj>, n: nat)
    requires n <= |events|
    ensures BatchOf(keys, events, n).Writes? <==> ValidUpTo(keys, events, n)
  {
    if n > 0 {
      BatchCompletes(keys, events, n - 1);
      BatchStopsAtFirst(keys, events, n - 1);
    }
  }

  /** When the loop throws, it throws at the first record that is not accepted. */
  lemma {:induction false} BatchStopsAtFirst(keys: seq<string>, events: seq<Obj>, n: nat)
    requires n <= |events|
    ensures BatchOf(keys, events, n).Throws? ==>
              var i := BatchOf(keys, events, n).index;
              i < n && !Accepted(keys, events[i]) && ValidUpTo(keys, events, i)
  {
    if n > 0 {
      BatchStopsAtFirst(keys, events, n - 1);
      BatchCompletes(keys, events, n - 1);
    }
  }

  /** `batch.commit()`: the writes applied in order, each replacing the whole document. */
  function Commit(store: map<string, Obj>, ws: seq<Write>): map<string, Obj>
  {
    if ws == [] then store
    else
      var n := |ws| - 1;
      Commit(store, ws[..n])[ws[n].id := ws[n].doc]
  }

  /** The ids the writes name. */
  function WrittenIds(ws: seq<Write>): set<string>
  {
    set w | w in ws :: w.id
  }

  /** A commit keeps every document and adds exactly the written ones. */
  lemma {:induction false} CommitKeys(store: map<string, Obj>, ws: seq<Write>)
    ensures Commit(store, ws).Keys == store.Keys + WrittenIds(ws)
  {
    if ws != [] {
      var n := |ws| - 1;
      CommitKeys(store, ws[..n]);
      assert ws == ws[..n] + [ws[n]];
      assert WrittenIds(ws) == WrittenIds(ws[..n]) + {ws[n].id};
    }
  }

  /** The document the last write to `id` sets, if any write does. */
  function LastWrite(ws: seq<Write>, id: string): Option<Obj>
  {
    if ws == [] then None
    else
      var n := |ws| - 1;
      if ws[n].id == id then Some(ws[n].doc) else LastWrite(ws[..n], id)
  }

  /** After a commit, a document holds what the last write to it set, or what
      it held before when no write names it. */
  lemma {:induction false} CommitLookup(store: map<string, Obj>, ws: seq<Write>, id: string)
    ensures id in Commit(store, ws) <==> id in store || LastWrite(ws, id).Some?
    ensures LastWrite(ws, id).Some? ==> Commit(store, ws)[id] == LastWrite(ws, id).value
    ensures LastWrite(ws, id).None? && id in store ==> Commit(store, ws)[id] == store[id]
  {
    if ws != [] {
      CommitLookup(store, ws[..|ws| - 1], id);
    }
  }

  /** A write is the last one to its id when no later write names that id. */
  lemma {:induction false} LastWriteAt(ws: seq<Write>, i: nat)
    requires i < |ws|
    requires forall j :: i < j < |ws| ==> ws[j].id != ws[i].id
    ensures LastWrite(ws, ws[i].id) == Some(ws[i].doc)
  {
    var n := |ws| - 1;
    if i < n {
      assert ws[..n][i] == ws[i];
      LastWriteAt(ws[..n], i);
    }
  }

  /** Every id that some write names has a last write. */
  lemma {:induction false} LastWriteExists(ws: seq<Write>, i: nat)
    requires i < |ws|
    ensures LastWrite(ws, ws[i].id).Some?
  {
    var n := |ws| - 1;
    if i < n && ws[n].id != ws[i].id {
      assert ws[..n][i] == ws[i];
      LastWriteExists(ws[..n], i);
    }
  }

  /** No write names `id`: nothing is written to it. */
  lemma {:induction false} LastWriteAbsent(ws: seq<Write>, id: string)
    requires forall j :: 0 <= j < |ws| ==> ws[j].id != id
    ensures LastWrite(ws, id) == None
  {
    if ws != [] {
      LastWriteAbsent(ws[..|ws| - 1], id);
    }
  }

  /** Committing the same writes twice leaves what committing them once leaves. */
  lemma CommitIdempotent(store: map<string, Obj>, ws: seq<Write>)
    ensures Commit(Commit(store, ws), ws) == Commit(store, ws)
  {
    var once := Commit(store, ws);
    var twice := Commit(once, ws);
    forall id | true
      ensures id in twice <==> id in once
      ensures id in once ==> twice[id] == once[id]
    {
      CommitLookup(store, ws, id);
      CommitLookup(once, ws, id);
    }
  }

  /** What ingestion did: committed, or stopped by the record at `index`, whose
      id `doc` refused or whose cut-down copy `set` refused. */
  datatype Outcome = Committed | InvalidDocumentId(index: nat) | UndefinedField(index: nat)

  /** One run of the ingestion over `store`: the outcome and the new store. The
      run commits exactly when every record is accepted; otherwise it throws at
      the first record that is not, before the commit, and writes nothing. */
  function Ingested(store: map<string, Obj>, p: Payload): (r: (Outcome, map<string, Obj>))
    ensures r.0.Committed? <==> AllAccepted(Collected(p))
    ensures !r.0.Committed? ==> r.1 == store
    ensures r.0.InvalidDocumentId? ==>
              var i := r.0.index;
              i < |Collected(p)| && IdOf(Collected(p)[i]).None? && ValidUpTo(EventKeys, Collected(p), i)
    ensures r.0.UndefinedField? ==>
              var i := r.0.index;
              && i < |Collected(p)| && IdOf(Collected(p)[i]).Some?
              && !Complete(EventKeys, Collected(p)[i])
              && ValidUpTo(EventKeys, Collected(p), i)
  {
    BatchCompletes(EventKeys, Collected(p), |Collected(p)|);
    BatchStopsAtFirst(EventKeys, Collected(p), |Collected(p)|);
    match BuildBatch(Collected(p))
    case Throws(i) =>
      (if IdOf(Collected(p)[i]).None? then InvalidDocumentId(i) else UndefinedField(i), store)
    case Writes(ws) => (Committed, Commit(store, ws))
  }

  /** Once the loop has thrown, later records change nothing. */
  lemma {:induction false} ThrowPersists(keys: seq<string>, events: seq<Obj>, m: nat, n: nat)
    requires m <= n <= |events|
    requires BatchOf(keys, events, m).Throws?
    ensures BatchOf(keys, events, n) == BatchOf(keys, events, m)
  {
    if m < n {
      ThrowPersists(keys, events, m, n - 1);
    }
  }

  /** A committed record that no later record overrides is stored under its id
      as exactly its `EVENT_KEYS` fields. */
  lemma LastRecordStored(store: map<string, Obj>, p: Payload, i: nat)
    requires Ingested(store, p).0.Committed?
    requires i < |Collected(p)|
    requires forall j :: i < j < |Collected(p)| ==> IdOf(Collected(p)[j]) != IdOf(Collected(p)[i])
    ensures IdOf(Collected(p)[i]).Some?
    ensures IdOf(Collected(p)[i]).value in Ingested(store, p).1
    ensures Ingested(store, p).1[IdOf(Collected(p)[i]).value] == Whitelist(EventKeys, Collected(p)[i])
  {
    var events := Collected(p);
    BatchWrites(EventKeys, events, |events|);
    var ws := BuildBatch(events).ws;
    forall j | i < j < |ws| ensures ws[j].id != ws[i].id {
      assert IdOf(events[j]) != IdOf(events[i]);
    }
    LastWriteAt(ws, i);
    CommitLookup(store, ws, ws[i].id);
  }

  /** The position of the last write to `id`, when there is one. */
  lemma {:induction false} LastWriteDoc(ws: seq<Write>, id: string) returns (j: nat)
    requires LastWrite(ws, id).Some?
    ensures j < |ws| && ws[j].id == id && LastWrite(ws, id) == Some(ws[j].doc)
  {
    var n := |ws| - 1;
    if ws[n].id == id {
      j := n;
    } else {
      j := LastWriteDoc(ws[..n], id);
    }
  }

  /** Every document a committed run writes has exactly the `EVENT_KEYS` keys,
      none of them `undefined`. */
  lemma StoredDocsNormalised(store: map<string, Obj>, p: Payload, i: nat)
    requires Ingested(store, p).0.Committed?
    requires i < |Collected(p)|
    ensures IdOf(Collected(p)[i]).Some?
    ensures IdOf(Collected(p)[i]).value in Ingested(store, p).1
    ensures Ingested(store, p).1[IdOf(Collected(p)[i]).value].Keys == KeySet(EventKeys)
    ensures NoUndefined(Ingested(store, p).1[IdOf(Collected(p)[i]).value])
  {
    var events := Collected(p);
    BatchWrites(EventKeys, events, |events|);
    var ws := BuildBatch(events).ws;
    var id := ws[i].id;
    assert ws[i] == WriteFor(EventKeys, events[i]);
    LastWriteExists(ws, i);
    CommitLookup(store, ws, id);
    var last := LastWriteDoc(ws, id);
    assert ws[last] == WriteFor(EventKeys, events[last]);
    assert Accepted(EventKeys, events[last]);
    NoUndefinedIffComplete(EventKeys, events[last]);
  }

  /** A record of `currentEvents` overrides every upcoming record with the same id:
      the stored document is the current record, unless a later current record
      overrides it in turn. */
  lemma CurrentOverridesUpcoming(store: map<string, Obj>, up: seq<Obj>, cur: seq<Obj>, i: nat)
    requires Ingested(store, Payload(Some(up), Some(cur))).0.Committed?
    requires i < |cur|
    requires forall j :: i < j < |cur| ==> IdOf(cur[j]) != IdOf(cur[i])
    ensures IdOf(cur[i]).Some?
    ensures IdOf(cur[i]).value in Ingested(store, Payload(Some(up), Some(cur))).1
    ensures Ingested(store, Payload(Some(up), Some(cur))).1[IdOf(cur[i]).value] == Whitelist(EventKeys, cur[i])
  {
    var p := Payload(Some(up), Some(cur));
    var events := Collected(p);
    assert events[|up| + i] == cur[i];
    forall j | |up| + i < j < |events|
      ensures IdOf(events[j]) != IdOf(events[|up| + i])
    {
      assert events[j] == cur[j - |up|];
    }
    LastRecordStored(store, p, |up| + i);
  }

  /** A document that no record of the payload names is left as it was. */
  lemma OthersUnchanged(store: map<string, Obj>, p: Payload, id: string)
    requires forall i :: 0 <= i < |Collected(p)| ==> IdOf(Collected(p)[i]) != Some(id)
    ensures id in Ingested(store, p).1 <==> id in store
    ensures id in store ==> Ingested(store, p).1[id] == store[id]
  {
    var events := Collected(p);
    BatchCompletes(EventKeys, events, |events|);
    if AllAccepted(events) {
      BatchWrites(EventKeys, events, |events|);
      var ws := BuildBatch(events).ws;
      forall j | 0 <= j < |ws| ensures ws[j].id != id {
        assert ws[j] == WriteFor(EventKeys, events[j]);
      }
      LastWriteAbsent(ws, id);
      CommitLookup(store, ws, id);
    }
  }

  /** `set` replaces the whole document: what a committed run stores under a
      written id does not depend on what was stored there before. */
  lemma WholeDocumentReplaced(s1: map<string, Obj>, s2: map<string, Obj>, p: Payload, i: nat)
    requires Ingested(s1, p).0.Committed?
    requires i < |Collected(p)|
    ensures IdOf(Collected(p)[i]).Some?
    ensures IdOf(Collected(p)[i]).value in Ingested(s1, p).1
    ensures IdOf(Collected(p)[i]).value in Ingested(s2, p).1
    ensures Ingested(s1, p).1[IdOf(Collected(p)[i]).value] == Ingested(s2, p).1[IdOf(Collected(p)[i]).value]
  {
    var events := Collected(p);
    BatchWrites(EventKeys, events, |events|);
    var ws := BuildBatch(events).ws;
    var id := ws[i].id;
    assert ws[i] == WriteFor(EventKeys, events[i]);
    LastWriteExists(ws, i);
    CommitLookup(s1, ws, id);
    CommitLookup(s2, ws, id);
  }

  /** Ingesting the same payload twice leaves the same store, and the same
      outcome, as ingesting it once. */
  lemma IngestIdempotent(store: map<string, Obj>, p: Payload)
    ensures Ingested(Ingested(store, p).1, p) == Ingested(store, p)
  {
    match BuildBatch(Collected(p))
    case Throws(_) =>
    case Writes(ws) => CommitIdempotent(store, ws);
  }

  /** The `for (let event of events)` loop: `doc` on the record's id, the copy
      of its `keys`, then `set`; it stops at the first call that throws. */
  method FillBatch(keys: seq<string>, events: seq<Obj>) returns (b: Batch)
    ensures b == BatchOf(keys, events, |events|)
  {
    var batch: seq<Write> := [];
    var i := 0;
    while i < |events|
      invariant 0 <= i <= |events|
      invariant BatchOf(keys, events, i) == Writes(batch)
    {
      var id := IdOf(events[i]);
      if id.None? {
        ThrowPersists(keys, events, i + 1, |events|);
        return Throws(i);
      }
      var cleaned := CopyKeys(keys, events[i]);
      NoUndefinedIffComplete(keys, events[i]);
      if !NoUndefined(cleaned) {
        ThrowPersists(keys, events, i + 1, |events|);
        return Throws(i);
      }
      batch := batch + [Write(id.value, cleaned)];
      i := i + 1;
    }
    return Writes(batch);
  }

  /** The `events` collection, written only by ingestion runs. */
  class EventStore {
    var docs: map<string, Obj>

    constructor(initial: map<string, Obj>)
      ensures docs == initial
    {
      docs := initial;
    }

    /** One scheduled run over the fetched payload. */
    method Ingest(p: Payload) returns (outcome: Outcome)
      modifies this
      ensures (outcome, docs) == Ingested(old(docs), p)
    {
      var events: seq<Obj> := [];
      if p.upcomingEvents.Some? {
        events := events + p.upcomingEvents.value;
      }
      if p.currentEvents.Some? {
        events := events + p.currentEvents.value;
      }
      assert events == Collected(p);
      var batch := FillBatch(EventKeys, events);
      BuildBatchSpec(events);
      match batch
      case Throws(i) =>
        outcome := if IdOf(events[i]).None? then InvalidDocumentId(i) else UndefinedField(i);
      case Writes(ws) =>
        docs := Commit(docs, ws);
        outcome := Committed;
    }
  }
}
