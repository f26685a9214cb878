/**
  What one pass of `processDepositJson` guarantees, and what any number of
  passes over one lock directory guarantee together.
 */
module BatchProperties {
  import opened Ssz
  import opened Batch

  /** The pubkeys the report lists as sent with their lock written. */
  function SentKeys(log: seq<Entry>): (keys: set<string>)
    decreases |log|
  {
    if log == [] then {}
    else
      var n := |log| - 1;
      SentKeys(log[..n]) + if log[n].Sent? then {log[n].pubkey} else {}
  }

  /** The locks in place when the pass reached record `i`. */
  function LocksBefore(locks: set<string>, log: seq<Entry>, i: nat): (held: set<string>)
    requires i <= |log|
  {
    locks + SentKeys(log[..i])
  }

  lemma SentKeysAppend(log: seq<Entry>, e: Entry)
    ensures SentKeys(log + [e]) == SentKeys(log) + if e.Sent? then {e.pubkey} else {}
  {
    assert (log + [e])[..|log|] == log;
  }

  /**
    The lock set only grows, and only by locks written after a send returned:
    after a pass it is the initial set plus the pubkeys reported `Sent`.
   */
  lemma {:induction false} PassLocks(locks: set<string>, records: seq<DepositJson>, fates: seq<Fate>)
    requires |fates| == |records|
    ensures RunPass(locks, records, fates).locks == locks + SentKeys(RunPass(locks, records, fates).log)
    decreases |records|
  {
    if records != [] {
      var n := |records| - 1;
      var before := RunPass(locks, records[..n], fates[..n]);
      PassLocks(locks, records[..n], fates[..n]);
      if !before.aborted {
        var after := Visit(before, records[n], fates[n]);
        if after.log != before.log {
          SentKeysAppend(before.log, after.log[|before.log|]);
          assert after.log == before.log + [after.log[|before.log|]];
        }
      }
    }
  }

  /**
    A pass either reaches every record, or it stops at the first record that
    was not locked and whose preparation threw; the records after it are not
    attempted.
   */
  lemma {:induction false} PassProgress(locks: set<string>, records: seq<DepositJson>, fates: seq<Fate>)
    requires |fates| == |records|
    ensures var p := RunPass(locks, records, fates);
            && |p.log| <= |records|
            && (!p.aborted ==> |p.log| == |records|)
            && (p.aborted ==> |p.log| < |records| && fates[|p.log|] == PrepareThrows && records[|p.log|].pubkey !in p.locks)
    decreases |records|
  {
    if records != [] {
      var n := |records| - 1;
      PassProgress(locks, records[..n], fates[..n]);
    }
  }

  /**
    What the report may say for a record reached with `locks` in place: it
    names the record's pubkey; the record is skipped exactly when its pubkey
    is locked; its preparation did not throw otherwise; it is `Sent` exactly
    when its fields have the declared lengths and both the send and the lock
    write succeed; it is `SentUnlocked` exactly when the send succeeds and the
    lock write throws. The remaining case, `Failed`, is a send that threw or
    a field of the wrong length.
   */
  predicate EntryFits(locks: set<string>, rec: DepositJson, fate: Fate, e: Entry) {
    && e.pubkey == rec.pubkey
    && (e.Skipped? <==> rec.pubkey in locks)
    && (!e.Skipped? ==> fate != PrepareThrows)
    && (e.Sent? <==> !e.Skipped? && WellFormed(DepositParams(rec)) && fate == Completes)
    && (e.SentUnlocked? <==> !e.Skipped? && WellFormed(DepositParams(rec)) && fate == LockWriteThrows)
  }

  /** One iteration of the loop: it either throws, changing nothing, or appends one fitting entry. */
  lemma VisitStep(p: Pass, rec: DepositJson, fate: Fate)
    requires !p.aborted
    ensures var q := Visit(p, rec, fate);
            && (q.aborted <==> rec.pubkey !in p.locks && fate == PrepareThrows)
            && (q.aborted ==> q.log == p.log && q.locks == p.locks && q.sent == p.sent)
            && (!q.aborted ==> |q.log| == |p.log| + 1 && q.log[..|p.log|] == p.log)
            && (!q.aborted ==> EntryFits(p.locks, rec, fate, q.log[|p.log|]))
            && (!q.aborted ==> q.locks == p.locks + if q.log[|p.log|].Sent? then {rec.pubkey} else {})
            && (!q.aborted ==> q.sent == p.sent + if Returned(q.log[|p.log|]) then [rec] else [])
  {
  }

  /**
    The report entry of every record the pass reached fits the record, its
    fate and the locks in place when it was reached: the initial locks and
    those written earlier in the same pass.
   */
  lemma {:induction false} PassEntry(locks: set<string>, records: seq<DepositJson>, fates: seq<Fate>, i: nat)
    requires |fates| == |records| && i < |records|
    requires i < |RunPass(locks, records, fates).log|
    ensures var p := RunPass(locks, records, fates);
            EntryFits(LocksBefore(locks, p.log, i), records[i], fates[i], p.log[i])
    decreases |records|
  {
    var n := |records| - 1;
    var before := RunPass(locks, records[..n], fates[..n]);
    var p := RunPass(locks, records, fates);
    PassProgress(locks, records[..n], fates[..n]);
    if !before.aborted {
      VisitStep(before, records[n], fates[n]);
    }
    assert p.log[..|before.log|] == before.log;
    if i < |before.log| {
      PassEntry(locks, records[..n], fates[..n], i);
      assert p.log[..i] == before.log[..i];
    } else {
      PassLocks(locks, records[..n], fates[..n]);
    }
  }

  /** A record whose pubkey is locked before the pass is skipped: no send, no new lock. */
  lemma LockedRecordSkipped(locks: set<string>, records: seq<DepositJson>, fates: seq<Fate>, i: nat)
    requires |fates| == |records| && i < |records|
    requires i < |RunPass(locks, records, fates).log|
    requires records[i].pubkey in locks
    ensures RunPass(locks, records, fates).log[i] == Skipped(records[i].pubkey)
  {
    PassEntry(locks, records, fates, i);
  }

  /** Continue on error: when no preparation throws, every record is reached, whatever the sends do. */
  lemma ContinueOnError(locks: set<string>, records: seq<DepositJson>, fates: seq<Fate>)
    requires |fates| == |records|
    requires forall i :: 0 <= i < |fates| ==> fates[i] != PrepareThrows
    ensures !RunPass(locks, records, fates).aborted
    ensures |RunPass(locks, records, fates).log| == |records|
  {
    PassProgress(locks, records, fates);
  }

  /** The records a report accounts as sent: those whose send returned, in input order. */
  function SentRecords(records: seq<DepositJson>, log: seq<Entry>): (sent: seq<DepositJson>)
    requires |log| <= |records|
    decreases |log|
  {
    if log == [] then []
    else
      var n := |log| - 1;
      SentRecords(records, log[..n]) + if Returned(log[n]) then [records[n]] else []
  }

  /** A record whose send returned had fields of the declared lengths. */
  lemma ReturnedWellFormed(locks: set<string>, records: seq<DepositJson>, fates: seq<Fate>)
    requires |fates| == |records|
    ensures |RunPass(locks, records, fates).log| <= |records|
    ensures var log := RunPass(locks, records, fates).log;
            forall i :: 0 <= i < |log| && Returned(log[i]) ==> WellFormed(DepositParams(records[i]))
  {
    var log := RunPass(locks, records, fates).log;
    PassProgress(locks, records, fates);
    forall i | 0 <= i < |log| && Returned(log[i])
      ensures WellFormed(DepositParams(records[i]))
    {
      PassEntry(locks, records, fates, i);
    }
  }

  /**
    The sends that returned during a pass are exactly those of the records
    reported `Sent` or `SentUnlocked`, in input order. With the loop's
    contract, the calls the contract received are `Submissions` of these:
    each record's decoded fields and its 0x-prefixed deposit root.
   */
  lemma {:induction false} PassSent(locks: set<string>, records: seq<DepositJson>, fates: seq<Fate>)
    requires |fates| == |records|
    ensures |RunPass(locks, records, fates).log| <= |records|
    ensures var p := RunPass(locks, records, fates);
            p.sent == SentRecords(records, p.log)
    decreases |records|
  {
    PassProgress(locks, records, fates);
    if records != [] {
      var n := |records| - 1;
      var before := RunPass(locks, records[..n], fates[..n]);
      var p := RunPass(locks, records, fates);
      PassSent(locks, records[..n], fates[..n]);
      SentRecordsPrefix(records, before.log);
      if !before.aborted {
        VisitStep(before, records[n], fates[n]);
        if !p.aborted {
          PassProgress(locks, records[..n], fates[..n]);
          assert p.log[..n] == before.log;
        }
      }
    }
  }

  /** `SentRecords` only looks at the records its report covers. */
  lemma {:induction false} SentRecordsPrefix(records: seq<DepositJson>, log: seq<Entry>)
    requires 0 < |records| && |log| <= |records| - 1
    ensures SentRecords(records, log) == SentRecords(records[..|records| - 1], log)
    decreases |log|
  {
    if log != [] {
      SentRecordsPrefix(records, log[..|log| - 1]);
    }
  }

  /** How many `deposit` calls returned for pubkey string `k`. */
  function Deposits(history: seq<Entry>, k: string): (count: nat)
    decreases |history|
  {
    if history == [] then 0
    else
      var n := |history| - 1;
      Deposits(history[..n], k) + if Returned(history[n]) && history[n].pubkey == k then 1 else 0
  }

  /** How many times a send for `k` returned and the lock write then threw. */
  function LostLocks(history: seq<Entry>, k: string): (count: nat)
    decreases |history|
  {
    if history == [] then 0
    else
      var n := |history| - 1;
      LostLocks(history[..n], k) + if history[n] == SentUnlocked(k) then 1 else 0
  }

  /**
    At most once per key, up to lost locks: every returned send for `k`
    beyond the first was preceded by a lock write for `k` that threw, and a
    key with one more returned send than lost locks is locked.
   */
  ghost predicate AtMostOnce(locks: set<string>, history: seq<Entry>) {
    forall k :: Deposits(history, k) <= LostLocks(history, k) + 1 &&
                (Deposits(history, k) == LostLocks(history, k) + 1 ==> k in locks)
  }

  lemma CountsAppend(history: seq<Entry>, e: Entry, k: string)
    ensures Deposits(history + [e], k) == Deposits(history, k) + if Returned(e) && e.pubkey == k then 1 else 0
    ensures LostLocks(history + [e], k) == LostLocks(history, k) + if e == SentUnlocked(k) then 1 else 0
  {
    assert (history + [e])[..|history|] == history;
  }

  /**
    One report entry keeps the invariant: a send that returns for an
    unlocked key either writes its lock or is counted as a lost lock.
   */
  lemma AtMostOnceStep(locks: set<string>, history: seq<Entry>, e: Entry)
    requires AtMostOnce(locks, history)
    requires Returned(e) ==> e.pubkey !in locks
    ensures AtMostOnce(locks + if e.Sent? then {e.pubkey} else {}, history + [e])
  {
    forall k
      ensures Deposits(history + [e], k) <= LostLocks(history + [e], k) + 1
      ensures Deposits(history + [e], k) == LostLocks(history + [e], k) + 1 ==> k in locks + if e.Sent? then {e.pubkey} else {}
    {
      CountsAppend(history, e, k);
    }
  }

  /** A pass keeps the at-most-once invariant of the history and the lock set it shares with earlier passes. */
  lemma {:induction false} PassKeepsAtMostOnce(locks: set<string>, history: seq<Entry>,
                                               records: seq<DepositJson>, fates: seq<Fate>)
    requires |fates| == |records|
    requires AtMostOnce(locks, history)
    ensures var p := RunPass(locks, records, fates);
            AtMostOnce(p.locks, history + p.log)
    decreases |records|
  {
    if records == [] {
      assert history + [] == history;
    } else {
      var n := |records| - 1;
      var before := RunPass(locks, records[..n], fates[..n]);
      PassKeepsAtMostOnce(locks, history, records[..n], fates[..n]);
      if !before.aborted {
        var after := Visit(before, records[n], fates[n]);
        VisitStep(before, records[n], fates[n]);
        if !after.aborted {
          var e := after.log[|before.log|];
          assert after.log == before.log + [e];
          assert history + after.log == (history + before.log) + [e];
          AtMostOnceStep(before.locks, history + before.log, e);
        }
      }
    }
  }

  /** One run of the script: the file's records and what the environment does with each. */
  datatype Run = Run(records: seq<DepositJson>, fates: seq<Fate>)

  predicate RunsWellFormed(runs: seq<Run>) {
    forall i :: 0 <= i < |runs| ==> |runs[i].fates| == |runs[i].records|
  }

  /** Passes run one after another over the same lock directory: final lock set and all reports, concatenated. */
  function RunPasses(locks: set<string>, runs: seq<Run>): (after: (set<string>, seq<Entry>))
    requires RunsWellFormed(runs)
    decreases |runs|
  {
    if runs == [] then (locks, [])
    else
      var n := |runs| - 1;
      var (locksBefore, history) := RunPasses(locks, runs[..n]);
      var p := RunPass(locksBefore, runs[n].records, runs[n].fates);
      (p.locks, history + p.log)
  }

  /**
    Across any number of passes sharing one lock directory (duplicates of a
    key within one file included), the sends that returned for a pubkey
    string number at most one more than the lock writes for it that threw.
   */
  lemma {:induction false} AtMostOneDepositPerKey(locks: set<string>, runs: seq<Run>, k: string)
    requires RunsWellFormed(runs)
    ensures Deposits(RunPasses(locks, runs).1, k) <= LostLocks(RunPasses(locks, runs).1, k) + 1
  {
    PassesKeepAtMostOnce(locks, runs);
  }

  lemma {:induction false} PassesKeepAtMostOnce(locks: set<string>, runs: seq<Run>)
    requires RunsWellFormed(runs)
    ensures AtMostOnce(RunPasses(locks, runs).0, RunPasses(locks, runs).1)
    decreases |runs|
  {
    if runs == [] {
      forall k ensures Deposits([], k) == 0 && LostLocks([], k) == 0 { }
    } else {
      var n := |runs| - 1;
      PassesKeepAtMostOnce(locks, runs[..n]);
      var (locksBefore, history) := RunPasses(locks, runs[..n]);
      PassKeepsAtMostOnce(locksBefore, history, runs[n].records, runs[n].fates);
    }
  }

  /**
    The state the lost lock leaves behind: a record whose send returned but
    whose lock write threw is sent again by the next pass over the same file.
   */
  lemma LostLockResends(locks: set<string>, rec: DepositJson)
    requires rec.pubkey !in locks
    requires WellFormed(DepositParams(rec))
    ensures var runs := [Run([rec], [LockWriteThrows]), Run([rec], [Completes])];
            && RunsWellFormed(runs)
            && RunPasses(locks, runs).1 == [SentUnlocked(rec.pubkey), Sent(rec.pubkey)]
            && Deposits(RunPasses(locks, runs).1, rec.pubkey) == 2
  {
    var runs := [Run([rec], [LockWriteThrows]), Run([rec], [Completes])];
    SingleRecordPass(locks, rec, LockWriteThrows);
    SingleRecordPass(locks, rec, Completes);
    assert runs[..1] == [runs[0]] && runs[..1][..0] == [];
    assert RunPasses(locks, runs[..1][..0]) == (locks, []);
    assert Outcome(rec, LockWriteThrows) == SentUnlocked(rec.pubkey);
    var first := RunPass(locks, [rec], [LockWriteThrows]);
    assert first.locks == locks && first.log == [SentUnlocked(rec.pubkey)];
    assert [] + first.log == first.log;
    assert runs[..1][0] == Run([rec], [LockWriteThrows]);
    assert RunPasses(locks, runs[..1]) == (locks, [SentUnlocked(rec.pubkey)]);
    assert RunPasses(locks, runs).1 == [SentUnlocked(rec.pubkey)] + [Sent(rec.pubkey)];
    CountsAppend([], SentUnlocked(rec.pubkey), rec.pubkey);
    assert [] + [SentUnlocked(rec.pubkey)] == [SentUnlocked(rec.pubkey)];
    CountsAppend([SentUnlocked(rec.pubkey)], Sent(rec.pubkey), rec.pubkey);
  }

  /** A pass over a single record is one iteration from an empty report. */
  lemma SingleRecordPass(locks: set<string>, rec: DepositJson, fate: Fate)
    ensures RunPass(locks, [rec], [fate]) == Visit(Pass(locks, [], [], false), rec, fate)
  {
    assert [rec][..0] == [] && [fate][..0] == [];
  }
}
