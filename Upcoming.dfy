/** get_upcoming_events: the earliest events whose start time, as a string,
    comes after the current ISO timestamp, at most `TOPK` of them, in start
    order, each projected. The Firestore query itself is a collaborator: what it
    may answer is stated by `QueryAnswer`, and the handler is modelled over any
    such answer. */
module Upcoming {
  import opened JsValues
  import opened Projectors

  /** The order in which Firestore compares string fields: by their UTF-8
      bytes, which is the order of their code points, so character by
      character here, a proper prefix first. */
  predicate StrLess(a: string, b: string)
  {
    if |b| == 0 then false
    else if |a| == 0 then true
    else if a[0] != b[0] then a[0] < b[0]
    else StrLess(a[1..], b[1..])
  }

  lemma {:induction false} StrLessIrreflexive(a: string)
    ensures !StrLess(a, a)
  {
    if |a| > 0 {
      StrLessIrreflexive(a[1..]);
    }
  }

  lemma {:induction false} StrLessTransitive(a: string, b: string, c: string)
    requires StrLess(a, b) && StrLess(b, c)
    ensures StrLess(a, c)
  {
    if |a| > 0 && a[0] == b[0] && b[0] == c[0] {
      StrLessTransitive(a[1..], b[1..], c[1..]);
    }
  }

  lemma {:induction false} StrLessTotal(a: string, b: string)
    ensures StrLess(a, b) || a == b || StrLess(b, a)
  {
    if |a| > 0 && |b| > 0 && a[0] == b[0] {
      StrLessTotal(a[1..], b[1..]);
      if a[1..] == b[1..] {
        assert a == [a[0]] + a[1..] && b == [b[0]] + b[1..];
      }
    }
  }

  /** A proper prefix comes first. */
  lemma {:induction false} StrLessProperPrefix(a: string, b: string)
    ensures StrLess(a, a + b) <==> b != []
  {
    if |a| > 0 {
      assert (a + b)[1..] == a[1..] + b;
      StrLessProperPrefix(a[1..], b);
    } else {
      assert a + b == b;
    }
  }

  /** `b` does not come before `a`. */
  predicate NotBefore(a: string, b: string)
  {
    !StrLess(b, a)
  }

  lemma NotBeforeTransitive(a: string, b: string, c: string)
    requires NotBefore(a, b) && NotBefore(b, c)
    ensures NotBefore(a, c)
  {
    StrLessTotal(a, b);
    if StrLess(a, b) && StrLess(c, a) {
      StrLessTransitive(c, a, b);
    }
  }

  /** A common prefix does not change the order. */
  lemma {:induction false} StrLessCommonPrefix(p: string, x: string, y: string)
    ensures StrLess(p + x, p + y) == StrLess(x, y)
  {
    if |p| > 0 {
      assert (p + x)[1..] == p[1..] + x;
      assert (p + y)[1..] == p[1..] + y;
      StrLessCommonPrefix(p[1..], x, y);
    } else {
      assert p + x == x && p + y == y;
    }
  }

  /** The filter `where("startDateTimeUtc", ">", now)`: the field is a string after
      `now`. An inequality on a string only matches string values. */
  predicate StartsAfter(doc: Obj, now: string)
  {
    match Get(doc, "startDateTimeUtc")
    case Some(Str(s)) => StrLess(now, s)
    case _ => false
  }

  /** The filter is strict and typed: an event starting exactly at `now`, and one
      whose start time is missing or not a string, does not pass. */
  lemma FilterStrictAndTyped(doc: Obj, now: string)
    ensures Get(doc, "startDateTimeUtc") == Some(Str(now)) ==> !StartsAfter(doc, now)
    ensures (Get(doc, "startDateTimeUtc").None? || !Get(doc, "startDateTimeUtc").value.Str?) ==> !StartsAfter(doc, now)
  {
    StrLessIrreflexive(now);
  }

  /** The start time of an event, when it is a string. */
  function StartOf(doc: Obj): string
  {
    match Get(doc, "startDateTimeUtc")
    case Some(Str(s)) => s
    case _ => ""
  }

  /** The start times of the events `ids` names. */
  function Starts(store: map<string, Obj>, ids: seq<string>): (s: seq<string>)
    requires forall i :: 0 <= i < |ids| ==> ids[i] in store
    ensures |s| == |ids| && forall i :: 0 <= i < |ids| ==> s[i] == StartOf(store[ids[i]])
  {
    seq(|ids|, i requires 0 <= i < |ids| => StartOf(store[ids[i]]))
  }

  /** Each start time is no earlier than the one before it. */
  predicate Ascending(s: seq<string>)
  {
    forall i :: 0 <= i < |s| - 1 ==> NotBefore(s[i], s[i + 1])
  }

  /** Ascending neighbours make the whole sequence ascending. */
  lemma {:induction false} AscendingPairwise(s: seq<string>, i: nat, j: nat)
    requires Ascending(s)
    requires i <= j < |s|
    ensures NotBefore(s[i], s[j])
    decreases j - i
  {
    if i == j {
      StrLessIrreflexive(s[i]);
    } else {
      AscendingPairwise(s, i, j - 1);
      NotBeforeTransitive(s[i], s[j - 1], s[j]);
    }
  }

  /** The ids of the stored events that pass the filter. */
  function Qualifying(store: map<string, Obj>, now: string): set<string>
  {
    set id | id in store && StartsAfter(store[id], now)
  }

  function Min(a: nat, b: nat): nat
  {
    if a <= b then a else b
  }

  /** What `where(...).limit(topK).get()` may answer. An inequality filter
      without an explicit order sorts by the filtered field, so the answer is
      the distinct stored events that pass the filter, as many as there are up
      to `topK`, in ascending start order, and no event left out starts before
      the last one answered. */
  predicate QueryAnswer(store: map<string, Obj>, now: string, topK: nat, ids: seq<string>)
  {
    && (forall i :: 0 <= i < |ids| ==> ids[i] in store && StartsAfter(store[ids[i]], now))
    && (forall i, j :: 0 <= i < j < |ids| ==> ids[i] != ids[j])
    && |ids| == Min(topK, |Qualifying(store, now)|)
    && Ascending(Starts(store, ids))
    && (forall id :: id in Qualifying(store, now) && id !in ids && |ids| > 0 ==>
          NotBefore(Starts(store, ids)[|ids| - 1], StartOf(store[id])))
  }

  /** The answer is the earliest events: none left out starts before any answered one. */
  lemma OmittedNotEarlier(store: map<string, Obj>, now: string, topK: nat, ids: seq<string>, i: nat, id: string)
    requires QueryAnswer(store, now, topK, ids)
    requires i < |ids|
    requires id in Qualifying(store, now) && id !in ids
    ensures NotBefore(StartOf(store[ids[i]]), StartOf(store[id]))
  {
    var s := Starts(store, ids);
    AscendingPairwise(s, i, |ids| - 1);
    NotBeforeTransitive(s[i], s[|ids| - 1], StartOf(store[id]));
  }

  /** The handler's response body: each answered event projected. Every record
      still starts after `now`, carries exactly the eight event keys and no score. */
  function UpcomingEvents(store: map<string, Obj>, now: string, topK: nat, ids: seq<string>): (r: seq<Obj>)
    requires QueryAnswer(store, now, topK, ids)
    ensures |r| == |ids| <= topK
    ensures forall i :: 0 <= i < |r| ==> StartsAfter(r[i], now)
    ensures forall i :: 0 <= i < |r| ==> r[i].Keys == KeySet(EventCopiedKeys) + {"org_url", "photo"} && "score" !in r[i]
    ensures forall i :: 0 <= i < |r| ==> r[i] == ProjectEvent(store[ids[i]])
  {
    var r := seq(|ids|, i requires 0 <= i < |ids| => ProjectEvent(store[ids[i]]));
    forall i | 0 <= i < |r|
      ensures StartsAfter(r[i], now) && "score" !in r[i]
    {
      EventFields(store[ids[i]]);
      EventLinks(store[ids[i]]);
      assert "startDateTimeUtc" in EventCopiedKeys;
    }
    r
  }

  /** The response lists the earliest upcoming events in start order: its records
      come in ascending start order, and no qualifying event left out starts
      before any of them. */
  lemma UpcomingInStartOrder(store: map<string, Obj>, now: string, topK: nat, ids: seq<string>)
    requires QueryAnswer(store, now, topK, ids)
    ensures var r := UpcomingEvents(store, now, topK, ids);
      && (forall i, j :: 0 <= i <= j < |r| ==> NotBefore(StartOf(r[i]), StartOf(r[j])))
      && (forall i, id :: 0 <= i < |r| && id in Qualifying(store, now) && id !in ids ==>
            NotBefore(StartOf(r[i]), StartOf(store[id])))
  {
    var r := UpcomingEvents(store, now, topK, ids);
    forall i | 0 <= i < |r|
      ensures StartOf(r[i]) == StartOf(store[ids[i]])
    {
      EventFields(store[ids[i]]);
      assert "startDateTimeUtc" in EventCopiedKeys;
    }
    forall i, j | 0 <= i <= j < |r|
      ensures NotBefore(StartOf(r[i]), StartOf(r[j]))
    {
      AscendingPairwise(Starts(store, ids), i, j);
    }
    forall i, id | 0 <= i < |r| && id in Qualifying(store, now) && id !in ids
      ensures NotBefore(StartOf(r[i]), StartOf(store[id]))
    {
      OmittedNotEarlier(store, now, topK, ids, i, id);
    }
  }

  /** When exactly one stored event qualifies and `topK` is at least one, the
      answer is that event alone. */
  lemma SingleQualifierAnswered(store: map<string, Obj>, now: string, topK: nat, ids: seq<string>, id: string)
    requires 1 <= topK
    requires Qualifying(store, now) == {id}
    requires QueryAnswer(store, now, topK, ids)
    ensures ids == [id]
  {
    assert |ids| == 1;
    assert ids[0] in Qualifying(store, now);
  }

  /** Of a past and a future event, only the future one qualifies. */
  lemma PastAndFutureQualifying(past: Obj, future: Obj, now: string)
    requires !StartsAfter(past, now) && StartsAfter(future, now)
    ensures Qualifying(map["past" := past, "future" := future], now) == {"future"}
  {
  }

  const ScenarioDay := "2024-03-01T1"
  const ScenarioNow := ScenarioDay + "2:00:00.000Z"
  const ScenarioPast := ScenarioDay + "1:00:00.000Z"
  const ScenarioFuture := ScenarioDay + "3:00:00.000Z"

  /** The clock at noon lies after 11:00 and before 13:00 on the same day. */
  lemma ScenarioClock()
    ensures !StrLess(ScenarioNow, ScenarioPast)
    ensures StrLess(ScenarioNow, ScenarioFuture)
  {
    StrLessCommonPrefix(ScenarioDay, "2:00:00.000Z", "1:00:00.000Z");
    StrLessCommonPrefix(ScenarioDay, "2:00:00.000Z", "3:00:00.000Z");
  }

  /** The scenario of one event an hour ago and one an hour ahead: with `topK`
      3 the only possible answer is the future event. */
  lemma OnlyFutureEventReturned(past: Obj, future: Obj, ids: seq<string>)
    requires Get(past, "startDateTimeUtc") == Some(Str(ScenarioPast))
    requires Get(future, "startDateTimeUtc") == Some(Str(ScenarioFuture))
    requires QueryAnswer(map["past" := past, "future" := future], ScenarioNow, 3, ids)
    ensures ids == ["future"]
  {
    ScenarioClock();
    PastAndFutureQualifying(past, future, ScenarioNow);
    SingleQualifierAnswered(map["past" := past, "future" := future], ScenarioNow, 3, ids, "future");
  }
}
