/** The per-process event tracker (`EventTracker`): a set of event ids being processed and a
    history of processed ids with their completion time and success flag.

    Every method of the source runs under one re-entrant lock, so each call is modelled as one
    atomic transition on an immutable `Tracker` value. The clock is an integer parameter
    (seconds). The processed history is a Python dict, whose keys keep their insertion order;
    it is modelled as a sequence of entries with distinct ids (`Dict`), which makes the
    tie-break of the capacity eviction (a stable sort by timestamp) exact. */
module EventTracker {
  import opened Common

  type EventId = string

  /** `max_history`: capacity of the processed history. */
  const DefaultMaxHistory: nat := 1000
  /** `retention_period`: 24 hours, in seconds. */
  const DefaultRetention: nat := 86400

  /** The value stored for a processed id: `{timestamp, success}`. */
  datatype Record = Record(timestamp: int, success: bool)

  /** One key/value pair of the processed history. */
  datatype Entry = Entry(id: EventId, rec: Record)

  predicate DistinctIds(es: seq<Entry>) {
    forall i, j :: 0 <= i < j < |es| ==> es[i].id != es[j].id
  }

  /** A dict: entries in insertion order, each key at most once. */
  type Dict = es: seq<Entry> | DistinctIds(es)

  function Keys(es: seq<Entry>): set<EventId> {
    set e | e in es :: e.id
  }

  datatype Tracker = Tracker(processing: set<EventId>, processed: Dict, maxHistory: nat, retention: nat)

  /** The state `_init_tracker` sets up. */
  function Init(): Tracker {
    Tracker({}, [], DefaultMaxHistory, DefaultRetention)
  }

  /** The tracker's central guarantee: an id is never both processing and processed; and the
      history never exceeds its capacity once an eviction has run. */
  predicate Valid(t: Tracker) {
    && t.processing !! Keys(t.processed)
    && |t.processed| <= t.maxHistory
  }

  /** No processed record lies in the future of `now` (the clock is monotone). */
  predicate NotAfter(t: Tracker, now: int) {
    forall e :: e in t.processed ==> e.rec.timestamp <= now
  }

  /** Dict lookup: the record stored for `id`, if any. */
  function Lookup(es: Dict, id: EventId): (r: Option<Record>)
    ensures r.Some? <==> id in Keys(es)
    ensures r.Some? ==> Entry(id, r.value) in es
    ensures forall rec :: Entry(id, rec) in es ==> r == Some(rec)
    decreases |es|
  {
    if |es| == 0 then None
    else if es[0].id == id then
      Some(es[0].rec)
    else Lookup(es[1..], id)
  }

  /** `is_processing`: a membership read; as a function of the state it cannot change it. */
  predicate IsProcessing(t: Tracker, id: EventId) {
    id in t.processing
  }

  /** `has_processed`: a membership read of the processed history. */
  predicate HasProcessed(t: Tracker, id: EventId) {
    Lookup(t.processed, id).Some?
  }

  /** The tracker holds `id` in one of its two phases. */
  predicate Retains(t: Tracker, id: EventId) {
    IsProcessing(t, id) || HasProcessed(t, id)
  }

  /** The outcome of `mark_as_processing`: the returned flag and the state after the call. */
  datatype Claim = Claim(granted: bool, tracker: Tracker)

  /** `mark_as_processing`: the atomic test-and-set claim. */
  function MarkAsProcessing(t: Tracker, id: EventId): (c: Claim)
    ensures c.granted <==> !IsProcessing(t, id) && !HasProcessed(t, id)
    ensures c.granted ==> c.tracker == t.(processing := t.processing + {id})
    ensures !c.granted ==> c.tracker == t
    ensures IsProcessing(c.tracker, id)
      || (HasProcessed(c.tracker, id) && !IsProcessing(c.tracker, id) && !c.granted)
    ensures Valid(t) ==> Valid(c.tracker)
  {
    if IsProcessing(t, id) || HasProcessed(t, id) then Claim(false, t)
    else Claim(true, t.(processing := t.processing + {id}))
  }

  lemma DistinctCons(e: Entry, es: seq<Entry>)
    requires e.id !in Keys(es) && DistinctIds(es)
    ensures DistinctIds([e] + es)
  {
    var r := [e] + es;
    forall i, j | 0 <= i < j < |r| ensures r[i].id != r[j].id {
      assert r[j] == es[j - 1];
      if i == 0 {
        assert es[j - 1] in es;
      }
    }
  }

  /** The tail of a dict is a dict without its first key. */
  lemma DictTail(es: Dict)
    requires |es| > 0
    ensures DistinctIds(es[1..])
    ensures es[0].id !in Keys(es[1..])
    ensures Keys(es) == {es[0].id} + Keys(es[1..])
  {
    forall i, j | 0 <= i < j < |es[1..]| ensures es[1..][i].id != es[1..][j].id {
      assert es[1..][i] == es[i + 1] && es[1..][j] == es[j + 1];
    }
    assert es == [es[0]] + es[1..];
  }

  /** The positions of an assignment to an existing key, one entry at a time. */
  lemma PutConsPositions(es: seq<Entry>, id: EventId, rec: Record, rest: seq<Entry>)
    requires |es| > 0 && es[0].id != id && |rest| == |es| - 1
    requires forall i :: 0 <= i < |es| - 1 ==>
               rest[i] == (if es[1..][i].id == id then Entry(id, rec) else es[1..][i])
    ensures forall i :: 0 <= i < |es| ==>
              ([es[0]] + rest)[i] == (if es[i].id == id then Entry(id, rec) else es[i])
  {
    forall i | 0 <= i < |es|
      ensures ([es[0]] + rest)[i] == (if es[i].id == id then Entry(id, rec) else es[i])
    {
      if i > 0 {
        assert es[1..][i - 1] == es[i];
      }
    }
  }

  /** Dict assignment `processed[id] = rec`: an existing key keeps its position and gets the
      new value; a new key goes last. */
  function Put(es: Dict, id: EventId, rec: Record): (r: Dict)
    ensures Entry(id, rec) in r
    ensures forall e :: e in r ==> e == Entry(id, rec) || (e in es && e.id != id)
    ensures forall e :: e in es && e.id != id ==> e in r
    ensures id in Keys(es) ==> |r| == |es|
    ensures id !in Keys(es) ==> r == es + [Entry(id, rec)]
    decreases |es|
  {
    if |es| == 0 then [Entry(id, rec)]
    else
      DictTail(es);
      if es[0].id == id then
        DistinctCons(Entry(id, rec), es[1..]);
        [Entry(id, rec)] + es[1..]
      else
        var rest := Put(es[1..], id, rec);
        KeysWithin(rest, es[1..], id);
        DistinctCons(es[0], rest);
        AppendAssoc([es[0]], es[1..], [Entry(id, rec)]);
        assert [es[0]] + es[1..] == es;
        [es[0]] + rest
  }

  /** Assigning to an existing key changes that entry's value in place: every entry keeps
      its position, so the insertion order the eviction's tie-break uses is unchanged. */
  lemma {:induction false} PutKeepsPosition(es: Dict, id: EventId, rec: Record)
    requires id in Keys(es)
    ensures |Put(es, id, rec)| == |es|
    ensures forall i :: 0 <= i < |es| ==>
              Put(es, id, rec)[i] == (if es[i].id == id then Entry(id, rec) else es[i])
    decreases |es|
  {
    DictTail(es);
    if es[0].id == id {
      forall i | 0 <= i < |es| ensures Put(es, id, rec)[i] == (if es[i].id == id then Entry(id, rec) else es[i]) {
        if i > 0 {
          assert es[i].id != es[0].id;
          assert es[1..][i - 1] == es[i];
        }
      }
    } else {
      assert id in Keys(es[1..]);
      PutKeepsPosition(es[1..], id, rec);
      PutConsPositions(es, id, rec, Put(es[1..], id, rec));
    }
  }

  lemma {:induction false} FilterKeepsDistinct(es: seq<Entry>, keep: Entry -> bool)
    requires DistinctIds(es)
    ensures DistinctIds(Filter(es, keep))
    decreases |es|
  {
    if |es| > 0 {
      assert DistinctIds(es[1..]) by {
        forall i, j | 0 <= i < j < |es[1..]| ensures es[1..][i].id != es[1..][j].id {
          assert es[1..][i] == es[i + 1] && es[1..][j] == es[j + 1];
        }
      }
      FilterKeepsDistinct(es[1..], keep);
      if keep(es[0]) {
        assert es[0].id !in Keys(Filter(es[1..], keep));
        DistinctCons(es[0], Filter(es[1..], keep));
      } else {
        assert Filter(es, keep) == Filter(es[1..], keep);
      }
    }
  }

  /** The test that keeps a record: it is expired only when strictly older than `cutoff`. */
  function Unexpired(cutoff: int): Entry -> bool {
    (e: Entry) => !(e.rec.timestamp < cutoff)
  }

  /** The first half of `_cleanup_old_records`: drop every record older than `cutoff`. */
  function Expire(es: Dict, cutoff: int): (r: Dict)
    ensures forall e :: e in r <==> e in es && cutoff <= e.rec.timestamp
  {
    FilterKeepsDistinct(es, Unexpired(cutoff));
    Filter(es, Unexpired(cutoff))
  }

  /** Index of the oldest record; among equally old records, the one inserted first (the
      head of a stable sort by timestamp). */
  function OldestIndex(es: seq<Entry>): (k: nat)
    requires |es| > 0
    ensures k < |es|
    ensures forall j :: 0 <= j < |es| ==> es[k].rec.timestamp <= es[j].rec.timestamp
    ensures forall j :: 0 <= j < k ==> es[k].rec.timestamp < es[j].rec.timestamp
    decreases |es|
  {
    if |es| == 1 then 0
    else
      var k := OldestIndex(es[..|es| - 1]);
      if es[|es| - 1].rec.timestamp < es[k].rec.timestamp then |es| - 1 else k
  }

  /** `del processed[es[k].id]`. */
  function RemoveAt(es: Dict, k: nat): (r: Dict)
    requires k < |es|
    ensures |r| == |es| - 1
    ensures forall i :: 0 <= i < |r| ==> r[i] == es[if i < k then i else i + 1]
    ensures forall e :: e in r <==> e in es && e != es[k]
  {
    var r := es[..k] + es[k + 1..];
    assert forall i :: 0 <= i < |r| ==> r[i] == es[if i < k then i else i + 1];
    r
  }

  /** Removing the oldest record first is consistent with the eviction order: if what remains
      is evicted in order, so is the whole. */
  lemma EvictionOrderStep(es: Dict, k: nat, r: seq<Entry>)
    requires k < |es|
    requires forall j :: 0 <= j < |es| ==> es[k].rec.timestamp <= es[j].rec.timestamp
    requires forall j :: 0 <= j < k ==> es[k].rec.timestamp < es[j].rec.timestamp
    requires forall e :: e in r ==> e in RemoveAt(es, k)
    requires var es' := RemoveAt(es, k);
             forall i, j {:trigger es'[i] in r, es'[j] in r} ::
               0 <= i < |es'| && 0 <= j < |es'| && es'[i] !in r && es'[j] in r ==>
               es'[i].rec.timestamp < es'[j].rec.timestamp
               || (es'[i].rec.timestamp == es'[j].rec.timestamp && i < j)
    ensures forall i, j {:trigger es[i] in r, es[j] in r} ::
              0 <= i < |es| && 0 <= j < |es| && es[i] !in r && es[j] in r ==>
              es[i].rec.timestamp < es[j].rec.timestamp
              || (es[i].rec.timestamp == es[j].rec.timestamp && i < j)
  {
    var es' := RemoveAt(es, k);
    forall i, j | 0 <= i < |es| && 0 <= j < |es| && es[i] !in r && es[j] in r
      ensures es[i].rec.timestamp < es[j].rec.timestamp
              || (es[i].rec.timestamp == es[j].rec.timestamp && i < j)
    {
      assert es[j] in es';
      assert j != k;
      if i != k {
        var i' := if i < k then i else i - 1;
        var j' := if j < k then j else j - 1;
        assert es'[i'] == es[i] && es'[j'] == es[j];
      }
    }
  }

  /** The second half of `_cleanup_old_records`: while the history is over capacity, delete its
      oldest record. Removing the first `|es| - cap` entries of a stable sort by timestamp is
      the same as removing, that many times, the first entry of minimal timestamp. */
  function EvictOldest(es: Dict, cap: nat): (r: Dict)
    ensures |r| == if |es| <= cap then |es| else cap
    ensures |es| <= cap ==> r == es
    ensures forall e :: e in r ==> e in es
    ensures forall i, j {:trigger es[i] in r, es[j] in r} ::
              0 <= i < |es| && 0 <= j < |es| && es[i] !in r && es[j] in r ==>
              es[i].rec.timestamp < es[j].rec.timestamp
              || (es[i].rec.timestamp == es[j].rec.timestamp && i < j)
    decreases |es|
  {
    if |es| <= cap then es
    else
      var k := OldestIndex(es);
      var r := EvictOldest(RemoveAt(es, k), cap);
      EvictionOrderStep(es, k, r);
      r
  }

  /** Every record the capacity eviction removes is at least as old as every record it keeps. */
  lemma EvictedNoNewerThanKept(es: Dict, cap: nat)
    ensures forall e, f :: e in es && e !in EvictOldest(es, cap) && f in EvictOldest(es, cap) ==>
              e.rec.timestamp <= f.rec.timestamp
  {
    var kept := EvictOldest(es, cap);
    forall e, f | e in es && e !in kept && f in kept ensures e.rec.timestamp <= f.rec.timestamp {
      var i :| 0 <= i < |es| && es[i] == e;
      var j :| 0 <= j < |es| && es[j] == f;
    }
  }

  /** Expiry keeps the surviving records in their insertion order. */
  lemma ExpireKeepsOrder(es: Dict, cutoff: int)
    ensures IsSubsequence(Expire(es, cutoff), es)
  {
    FilterIsSubsequence(es, Unexpired(cutoff));
  }

  /** Capacity eviction deletes records without reordering the rest: the survivors appear in
      their insertion order. */
  lemma {:induction false} EvictOldestKeepsOrder(es: Dict, cap: nat)
    ensures IsSubsequence(EvictOldest(es, cap), es)
    decreases |es|
  {
    if |es| <= cap {
      SubsequenceRefl(es);
    } else {
      var k := OldestIndex(es);
      var rest := RemoveAt(es, k);
      EvictOldestKeepsOrder(rest, cap);
      assert rest == es[..k] + es[k + 1..];
      DeleteIsSubsequence(es, k);
      SubsequenceTrans(EvictOldest(es, cap), rest, es);
    }
  }

  /** Expiry followed by eviction keeps the survivors in their insertion order. */
  lemma CleanupKeepsOrder(es: Dict, cutoff: int, cap: nat)
    ensures IsSubsequence(EvictOldest(Expire(es, cutoff), cap), es)
  {
    ExpireKeepsOrder(es, cutoff);
    EvictOldestKeepsOrder(Expire(es, cutoff), cap);
    SubsequenceTrans(EvictOldest(Expire(es, cutoff), cap), Expire(es, cutoff), es);
  }

  /** The last-inserted record survives a capacity eviction when no record is newer than it:
      ties are broken in favour of later insertion. */
  lemma NewestInsertedSurvives(u: Dict, cap: nat)
    requires cap >= 1 && |u| > 0
    requires forall j :: 0 <= j < |u| ==> u[j].rec.timestamp <= u[|u| - 1].rec.timestamp
    ensures u[|u| - 1] in EvictOldest(u, cap)
  {
    var r := EvictOldest(u, cap);
    assert r[0] in r;
  }

  /** No record is newer than the last-inserted one. */
  predicate NewestIsLast(es: seq<Entry>) {
    |es| > 0 ==> forall j :: 0 <= j < |es| ==> es[j].rec.timestamp <= es[|es| - 1].rec.timestamp
  }

  /** Expiry followed by eviction keeps the last-inserted record when it is unexpired and no
      record is newer. */
  lemma NewestSurvivesCleanup(es: Dict, cutoff: int, cap: nat)
    ensures cap >= 1 && |es| > 0 && NewestIsLast(es) && cutoff <= es[|es| - 1].rec.timestamp
            ==> es[|es| - 1] in EvictOldest(Expire(es, cutoff), cap)
  {
    if cap >= 1 && |es| > 0 && NewestIsLast(es) && cutoff <= es[|es| - 1].rec.timestamp {
      var n := |es|;
      var u := Expire(es, cutoff);
      assert es == es[..n - 1] + [es[n - 1]];
      FilterAppend(es[..n - 1], [es[n - 1]], Unexpired(cutoff));
      assert Filter([es[n - 1]], Unexpired(cutoff)) == [es[n - 1]];
      assert u == Filter(es[..n - 1], Unexpired(cutoff)) + [es[n - 1]];
      NewestInsertedSurvives(u, cap);
    }
  }

  /** The retention cutoff at time `now`: records strictly older than it are expired. */
  function Cutoff(t: Tracker, now: int): int {
    now - t.retention
  }

  /** What expiry followed by eviction keeps: unexpired records of `es`, at most `cap` of them,
      and every unexpired record when `es` was within capacity. */
  lemma ExpireThenEvict(es: Dict, cutoff: int, cap: nat)
    ensures forall e :: e in EvictOldest(Expire(es, cutoff), cap) ==> e in es && cutoff <= e.rec.timestamp
    ensures |EvictOldest(Expire(es, cutoff), cap)| <= cap
    ensures |es| <= cap ==>
              forall e :: e in es && cutoff <= e.rec.timestamp ==> e in EvictOldest(Expire(es, cutoff), cap)
  {
    var u := Expire(es, cutoff);
    if |es| <= cap {
      assert |Filter(es, Unexpired(cutoff))| <= |es|;
    }
  }

  /** Every unexpired record the eviction drops is no newer than any record it keeps. */
  lemma EvictedUnexpiredNoNewer(es: Dict, cutoff: int, cap: nat)
    ensures forall e, f ::
              (e in es && e !in EvictOldest(Expire(es, cutoff), cap) && cutoff <= e.rec.timestamp
               && f in EvictOldest(Expire(es, cutoff), cap))
              ==> e.rec.timestamp <= f.rec.timestamp
  {
    EvictedNoNewerThanKept(Expire(es, cutoff), cap);
  }

  /** `_cleanup_old_records` run at time `now`. */
  function Cleanup(t: Tracker, now: int): (r: Tracker)
    ensures r.processing == t.processing
    ensures r.maxHistory == t.maxHistory && r.retention == t.retention
    ensures forall e :: e in r.processed ==> e in t.processed
    ensures forall e :: e in r.processed ==> Cutoff(t, now) <= e.rec.timestamp
    ensures |r.processed| <= t.maxHistory
    ensures forall e, f ::
              (e in t.processed && e !in r.processed && Cutoff(t, now) <= e.rec.timestamp && f in r.processed)
              ==> e.rec.timestamp <= f.rec.timestamp
    ensures |t.processed| <= t.maxHistory ==>
              forall e :: e in t.processed && Cutoff(t, now) <= e.rec.timestamp ==> e in r.processed
    ensures var live := Expire(t.processed, Cutoff(t, now));
            |r.processed| == if |live| <= t.maxHistory then |live| else t.maxHistory
    ensures |Expire(t.processed, Cutoff(t, now))| <= t.maxHistory ==>
              forall e :: e in t.processed && Cutoff(t, now) <= e.rec.timestamp ==> e in r.processed
    ensures Valid(t) ==> Valid(r)
    ensures (t.maxHistory >= 1 && |t.processed| > 0 && NewestIsLast(t.processed)
             && Cutoff(t, now) <= t.processed[|t.processed| - 1].rec.timestamp)
            ==> t.processed[|t.processed| - 1] in r.processed
  {
    var kept := EvictOldest(Expire(t.processed, Cutoff(t, now)), t.maxHistory);
    ExpireThenEvict(t.processed, Cutoff(t, now), t.maxHistory);
    EvictedUnexpiredNoNewer(t.processed, Cutoff(t, now), t.maxHistory);
    NewestSurvivesCleanup(t.processed, Cutoff(t, now), t.maxHistory);
    assert Keys(kept) <= Keys(t.processed);
    t.(processed := kept)
  }

  /** The ids of a history whose entries are those of `b` or carry `id`. */
  lemma KeysWithin(a: seq<Entry>, b: seq<Entry>, id: EventId)
    requires forall e :: e in a ==> e.id == id || e in b
    ensures Keys(a) <= Keys(b) + {id}
  {
    forall x | x in Keys(a) ensures x in Keys(b) + {id} {
      var e :| e in a && e.id == x;
    }
  }

  /** The tracker with `id` moved to the history, before the cleanup. */
  function Recorded(t: Tracker, id: EventId, success: bool, now: int): Tracker {
    t.(processing := t.processing - {id}, processed := Put(t.processed, id, Record(now, success)))
  }

  /** The new record survives the cleanup: a re-completed id keeps its place in a history
      within capacity, and a new id is the newest record, placed last. */
  lemma RecordSurvivesCleanup(t: Tracker, id: EventId, success: bool, now: int)
    requires Valid(t) && NotAfter(t, now) && t.maxHistory >= 1
    ensures Entry(id, Record(now, success)) in Cleanup(Recorded(t, id, success, now), now).processed
  {
    var t1 := Recorded(t, id, success, now);
    var put := t1.processed;
    assert Cutoff(t1, now) <= now;
    if id in Keys(t.processed) {
      assert |put| <= t1.maxHistory;
    } else {
      assert put == t.processed + [Entry(id, Record(now, success))];
      assert put[|put| - 1] == Entry(id, Record(now, success));
      assert NewestIsLast(put) by {
        forall j | 0 <= j < |put| ensures put[j].rec.timestamp <= now {
          if j < |put| - 1 {
            assert put[j] == t.processed[j];
            assert put[j] in t.processed;
          }
        }
      }
    }
  }

  /** After the cleanup the history holds the new record and older records of other ids. */
  lemma RecordedEntries(t: Tracker, id: EventId, success: bool, now: int)
    ensures forall e :: e in Cleanup(Recorded(t, id, success, now), now).processed ==>
              e == Entry(id, Record(now, success)) || (e in t.processed && e.id != id)
  {
  }

  /** How many records the cleanup after a completion keeps, and that it keeps every other
      unexpired record when they fit. */
  lemma RecordedCount(t: Tracker, id: EventId, success: bool, now: int)
    ensures var live := Expire(Put(t.processed, id, Record(now, success)), Cutoff(t, now));
            var r := Cleanup(Recorded(t, id, success, now), now);
            && |r.processed| == (if |live| <= t.maxHistory then |live| else t.maxHistory)
            && (|live| <= t.maxHistory ==>
                  forall e :: e in t.processed && e.id != id && Cutoff(t, now) <= e.rec.timestamp
                              ==> e in r.processed)
  {
    var t1 := Recorded(t, id, success, now);
    assert Cutoff(t1, now) == Cutoff(t, now);
  }

  lemma RecordedValid(t: Tracker, id: EventId, success: bool, now: int)
    ensures Valid(t) ==> Valid(Cleanup(Recorded(t, id, success, now), now))
  {
    var r := Cleanup(Recorded(t, id, success, now), now);
    RecordedEntries(t, id, success, now);
    KeysWithin(r.processed, t.processed, id);
  }

  lemma RecordedNotAfter(t: Tracker, id: EventId, success: bool, now: int)
    ensures NotAfter(t, now) ==> NotAfter(Cleanup(Recorded(t, id, success, now), now), now)
  {
    RecordedEntries(t, id, success, now);
  }

  /** `mark_as_processed`: leave the processing set, record `{now, success}` (overwriting any
      earlier record for `id`), then clean up. */
  function MarkAsProcessed(t: Tracker, id: EventId, success: bool, now: int): (r: Tracker)
    ensures r.processing == t.processing - {id}
    ensures r.maxHistory == t.maxHistory && r.retention == t.retention
    ensures forall e :: e in r.processed ==> e == Entry(id, Record(now, success)) || (e in t.processed && e.id != id)
    ensures |r.processed| <= r.maxHistory
    ensures Valid(t) ==> Valid(r)
    ensures NotAfter(t, now) ==> NotAfter(r, now)
    ensures Valid(t) && NotAfter(t, now) && t.maxHistory >= 1 ==> Entry(id, Record(now, success)) in r.processed
    ensures var live := Expire(Put(t.processed, id, Record(now, success)), Cutoff(t, now));
            |r.processed| == if |live| <= t.maxHistory then |live| else t.maxHistory
    ensures |Expire(Put(t.processed, id, Record(now, success)), Cutoff(t, now))| <= t.maxHistory ==>
              forall e :: e in t.processed && e.id != id && Cutoff(t, now) <= e.rec.timestamp ==> e in r.processed
  {
    RecordedEntries(t, id, success, now);
    RecordedCount(t, id, success, now);
    RecordedValid(t, id, success, now);
    RecordedNotAfter(t, id, success, now);
    if Valid(t) && NotAfter(t, now) && t.maxHistory >= 1 then
      RecordSurvivesCleanup(t, id, success, now);
      Cleanup(Recorded(t, id, success, now), now)
    else
    Cleanup(Recorded(t, id, success, now), now)
  }

  /** The answers of `k` back-to-back `mark_as_processing(id)` calls, with no completion in
      between (the calls of racing callers, serialised by the lock). */
  function ClaimRepeatedly(t: Tracker, id: EventId, k: nat): (rs: seq<bool>)
    ensures |rs| == k
    decreases k
  {
    if k == 0 then []
    else
      var c := MarkAsProcessing(t, id);
      [c.granted] + ClaimRepeatedly(c.tracker, id, k - 1)
  }

  /** Once an id is processing, every further claim of it is refused. */
  lemma {:induction false} ClaimsOfAClaimedIdFail(t: Tracker, id: EventId, k: nat)
    requires IsProcessing(t, id)
    ensures forall i :: 0 <= i < k ==> !ClaimRepeatedly(t, id, k)[i]
    ensures Count(ClaimRepeatedly(t, id, k), true) == 0
    decreases k
  {
    if k > 0 {
      ClaimsOfAClaimedIdFail(t, id, k - 1);
      assert ClaimRepeatedly(t, id, k)[1..] == ClaimRepeatedly(t, id, k - 1);
    }
  }

  /** Race safety: of `k >= 1` claims of an id the tracker does not hold, exactly one succeeds,
      and it is the first. */
  lemma ExactlyOneClaimSucceeds(t: Tracker, id: EventId, k: nat)
    requires k >= 1 && !Retains(t, id)
    ensures ClaimRepeatedly(t, id, k)[0]
    ensures forall i :: 1 <= i < k ==> !ClaimRepeatedly(t, id, k)[i]
    ensures Count(ClaimRepeatedly(t, id, k), true) == 1
  {
    var c := MarkAsProcessing(t, id);
    ClaimsOfAClaimedIdFail(c.tracker, id, k - 1);
    assert ClaimRepeatedly(t, id, k)[1..] == ClaimRepeatedly(c.tracker, id, k - 1);
  }

  /** After `mark_as_processed(id, success)` at time `now`, `id` is no longer processing and
      its record is `{now, success}`, provided the history is in a reachable state (valid, no
      record after `now`) and has room for at least one record. A re-completed id keeps its
      dict position and does not grow the history; a new id goes last and the eviction's
      tie-break removes older-inserted records first, so the new record always survives. */
  lemma CompletionIsRecorded(t: Tracker, id: EventId, success: bool, now: int)
    requires Valid(t) && NotAfter(t, now) && t.maxHistory >= 1
    ensures !IsProcessing(MarkAsProcessed(t, id, success, now), id)
    ensures HasProcessed(MarkAsProcessed(t, id, success, now), id)
    ensures Lookup(MarkAsProcessed(t, id, success, now).processed, id) == Some(Record(now, success))
  {
  }
}
