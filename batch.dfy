/**
  The idempotent batch loop of batchDeposit.js: `processDepositJson` walks
  the deposit records in input order, skips every record whose pubkey
  string already has a lock file, sends the others to the deposit
  contract, and writes the lock only after the send returned.

  The filesystem lock directory is the `LockManager` class (a set of pubkey
  strings); the ethers contract is `DepositContract`, whose `Deposit`
  succeeds or throws as the environment decides. What the environment does
  with each record is a `Fate`, one per record: ranging over every sequence
  of fates ranges over every behaviour of one sequential pass.
 */
module Batch {
  import opened Bytes
  import opened Hex
  import opened Ssz

  /** One element of the deposit-data JSON array, fields as they are in the file. */
  datatype DepositJson = DepositJson(
    pubkey: string,
    withdrawalCredentials: string,
    amount: int,
    signature: string)

  /** What the environment does with a record that is not already locked. */
  datatype Fate =
    | PrepareThrows    // building depositParams or txParams throws, outside the try
    | DepositThrows    // contract.deposit throws (network error, revert, ...)
    | LockWriteThrows  // contract.deposit returns, then writing the lock file throws
    | Completes        // contract.deposit returns and the lock file is written

  /** What the pass reports for a record it reached (the console line it prints). */
  datatype Entry =
    | Skipped(pubkey: string)       // "already processed. Skipping."
    | Failed(pubkey: string)        // caught before contract.deposit returned; nothing sent
    | Sent(pubkey: string)          // contract.deposit returned and the lock was written
    | SentUnlocked(pubkey: string)  // contract.deposit returned but the lock write threw

  /** The arguments of one `contract.deposit` call that returned. */
  datatype Submission = Submission(
    pubkey: seq<Byte>,
    withdrawalCredentials: seq<Byte>,
    signature: seq<Byte>,
    depositRoot: string)

  /** The state a pass has reached: lock set, report so far, records whose send returned, whether it threw. */
  datatype Pass = Pass(locks: set<string>, log: seq<Entry>, sent: seq<DepositJson>, aborted: bool)

  /** `depositParams`: the byte fields decoded as `Buffer.from(…, "hex")` does, the amount as it is. */
  function DepositParams(rec: DepositJson): (d: DepositData)
  {
    DepositData(FromHex(rec.pubkey), FromHex(rec.withdrawalCredentials), rec.amount, FromHex(rec.signature))
  }

  /** The call `contract.deposit` receives for a record whose fields have the declared lengths. */
  function SubmissionOf(h: Hash, rec: DepositJson): (call: Submission)
    requires WellFormed(DepositParams(rec))
  {
    var d := DepositParams(rec);
    Submission(d.pubkey, d.withdrawalCredentials, d.signature, DepositRootString(h, d))
  }

  /** Every record's fields have the declared lengths. */
  predicate AllWellFormed(records: seq<DepositJson>)
    decreases |records|
  {
    records == [] || (AllWellFormed(records[..|records| - 1]) && WellFormed(DepositParams(records[|records| - 1])))
  }

  /** The calls `contract.deposit` receives for `records`, in order. */
  function Submissions(h: Hash, records: seq<DepositJson>): (calls: seq<Submission>)
    requires AllWellFormed(records)
    ensures |calls| == |records|
    decreases |records|
  {
    if records == [] then []
    else
      var n := |records| - 1;
      Submissions(h, records[..n]) + [SubmissionOf(h, records[n])]
  }

  /** Appending one record's call to the calls of `records`, after any earlier calls `calls0`. */
  lemma SubmissionsAppend(h: Hash, calls0: seq<Submission>, records: seq<DepositJson>, rec: DepositJson)
    requires AllWellFormed(records) && WellFormed(DepositParams(rec))
    ensures AllWellFormed(records + [rec])
    ensures calls0 + Submissions(h, records) + [SubmissionOf(h, rec)] == calls0 + Submissions(h, records + [rec])
  {
    assert (records + [rec])[..|records|] == records;
  }

  /** Whether `contract.deposit` returned for this entry's record. */
  predicate Returned(e: Entry) {
    e.Sent? || e.SentUnlocked?
  }

  /**
    The entry the `try` block yields for a record that is not locked and
    whose preparation did not throw. A field of the wrong length makes the
    root computation throw inside the try, which is caught like a failed send.
   */
  function Outcome(rec: DepositJson, fate: Fate): (e: Entry)
    ensures e.pubkey == rec.pubkey && !e.Skipped?
    ensures Returned(e) <==> WellFormed(DepositParams(rec)) && (fate == LockWriteThrows || fate == Completes)
  {
    if !WellFormed(DepositParams(rec)) then Failed(rec.pubkey)
    else
      match fate
      case LockWriteThrows => SentUnlocked(rec.pubkey)
      case Completes => Sent(rec.pubkey)
      case _ => Failed(rec.pubkey)
  }

  /** One iteration of the loop. */
  function Visit(p: Pass, rec: DepositJson, fate: Fate): (q: Pass)
  {
    if rec.pubkey in p.locks then p.(log := p.log + [Skipped(rec.pubkey)])
    else if fate == PrepareThrows then p.(aborted := true)
    else
      var e := Outcome(rec, fate);
      Pass(if e.Sent? then p.locks + {rec.pubkey} else p.locks,
           p.log + [e],
           if Returned(e) then p.sent + [rec] else p.sent,
           false)
  }

  /** A pass over `records` from lock set `locks`: the loop's iterations in input order, stopping at a throw. */
  function RunPass(locks: set<string>, records: seq<DepositJson>, fates: seq<Fate>): (p: Pass)
    requires |fates| == |records|
    decreases |records|
  {
    if records == [] then Pass(locks, [], [], false)
    else
      var n := |records| - 1;
      var before := RunPass(locks, records[..n], fates[..n]);
      if before.aborted then before else Visit(before, records[n], fates[n])
  }

  /** The pass over the first `i + 1` records is one more iteration of the pass over the first `i`. */
  lemma RunPassStep(locks: set<string>, records: seq<DepositJson>, fates: seq<Fate>, i: nat)
    requires |fates| == |records| && i < |records|
    ensures var before := RunPass(locks, records[..i], fates[..i]);
            RunPass(locks, records[..i + 1], fates[..i + 1]) == if before.aborted then before else Visit(before, records[i], fates[i])
  {
    assert records[..i + 1][..i] == records[..i] && fates[..i + 1][..i] == fates[..i];
  }

  /** Once a pass has thrown, the records after the one that threw change nothing. */
  lemma {:induction false} AbortedPassIsFinal(locks: set<string>, records: seq<DepositJson>, fates: seq<Fate>, i: nat)
    requires |fates| == |records| && i <= |records|
    requires RunPass(locks, records[..i], fates[..i]).aborted
    ensures RunPass(locks, records, fates) == RunPass(locks, records[..i], fates[..i])
    decreases |records| - i
  {
    if i < |records| {
      var n := |records| - 1;
      assert records[..i] == records[..n][..i] && fates[..i] == fates[..n][..i];
      AbortedPassIsFinal(locks, records[..n], fates[..n], i);
    } else {
      assert records[..i] == records && fates[..i] == fates;
    }
  }

  /** The `-locks` directory next to the deposit file: one lock per pubkey string. */
  class LockManager {
    var locks: set<string>

    /** `createDirectory`: an existing directory keeps its locks, a new one starts empty. */
    constructor (existing: set<string>)
      ensures locks == existing
    {
      locks := existing;
    }

    /** `checkLock`: whether the lock file for `pubkey` exists. */
    method CheckLock(pubkey: string) returns (locked: bool)
      ensures locked <==> pubkey in locks
    {
      locked := pubkey in locks;
    }

    /** `createLock`: writes the lock file for `pubkey`, or throws when the write fails (`writable` false). */
    method CreateLock(pubkey: string, writable: bool) returns (written: bool)
      modifies this
      ensures written == writable
      ensures locks == if written then old(locks) + {pubkey} else old(locks)
    {
      written := writable;
      if written {
        locks := locks + {pubkey};
      }
    }
  }

  /** The staking contract as the loop sees it: a call that returns or throws. */
  class DepositContract {
    /** The `deposit` calls that returned, in order. */
    var calls: seq<Submission>

    constructor ()
      ensures calls == []
    {
      calls := [];
    }

    /** `contract.deposit(…)`: returns when `accepted`, throws otherwise. */
    method Deposit(pubkey: seq<Byte>, withdrawalCredentials: seq<Byte>, signature: seq<Byte>, depositRoot: string, accepted: bool)
      returns (returned: bool)
      modifies this
      ensures returned == accepted
      ensures calls == if returned then old(calls) + [Submission(pubkey, withdrawalCredentials, signature, depositRoot)] else old(calls)
    {
      returned := accepted;
      if returned {
        calls := calls + [Submission(pubkey, withdrawalCredentials, signature, depositRoot)];
      }
    }
  }

  /**
    The `try` block for a record that is not locked: compute the root, call
    `contract.deposit`, then write the lock. A throw anywhere in it is caught
    and reported, and the loop goes on.
   */
  method SendRecord(h: Hash, lockDir: LockManager, contract: DepositContract, rec: DepositJson, fate: Fate)
    returns (e: Entry)
    requires fate != PrepareThrows
    modifies lockDir, contract
    ensures e == Outcome(rec, fate)
    ensures lockDir.locks == if e.Sent? then old(lockDir.locks) + {rec.pubkey} else old(lockDir.locks)
    ensures Returned(e) ==> contract.calls == old(contract.calls) + [SubmissionOf(h, rec)]
    ensures !Returned(e) ==> contract.calls == old(contract.calls)
  {
    var params := DepositParams(rec);
    if !WellFormed(params) {
      return Failed(rec.pubkey);
    }
    var root := DepositRootString(h, params);
    var returned := contract.Deposit(params.pubkey, params.withdrawalCredentials, params.signature, root, fate != DepositThrows);
    if !returned {
      return Failed(rec.pubkey);
    }
    var written := lockDir.CreateLock(rec.pubkey, fate != LockWriteThrows);
    e := if written then Sent(rec.pubkey) else SentUnlocked(rec.pubkey);
  }

  /**
    One iteration of the loop, from the state `p` the pass has reached:
    skip a locked record, throw out of the loop when the preparation throws,
    otherwise run the `try` block. Ends in the state `Visit` gives. When the
    preparation throws (`threw`), no report line is printed: the `entry`
    returned then is a placeholder that the loop discards, and the contract
    says nothing about it.
   */
  method VisitRecord(h: Hash, lockDir: LockManager, contract: DepositContract, rec: DepositJson, fate: Fate,
                     ghost p: Pass, ghost calls0: seq<Submission>)
    returns (entry: Entry, threw: bool)
    requires !p.aborted && p.locks == lockDir.locks
    requires AllWellFormed(p.sent) && contract.calls == calls0 + Submissions(h, p.sent)
    modifies lockDir, contract
    ensures var q := Visit(p, rec, fate);
            && threw == q.aborted
            && (!threw ==> q.log == p.log + [entry])
            && lockDir.locks == q.locks
            && AllWellFormed(q.sent)
            && contract.calls == calls0 + Submissions(h, q.sent)
  {
    var locked := lockDir.CheckLock(rec.pubkey);
    if locked {
      return Skipped(rec.pubkey), false;
    }
    if fate == PrepareThrows {
      return Failed(rec.pubkey), true;
    }
    entry := SendRecord(h, lockDir, contract, rec, fate);
    threw := false;
    if Returned(entry) {
      SubmissionsAppend(h, calls0, p.sent, rec);
    }
  }

  /**
    `processDepositJson`: one pass over the records. Returns the report of the
    records it reached and whether it ended by throwing.
   */
  method ProcessDepositJson(h: Hash, lockDir: LockManager, contract: DepositContract, records: seq<DepositJson>, fates: seq<Fate>)
    returns (log: seq<Entry>, aborted: bool)
    requires |fates| == |records|
    modifies lockDir, contract
    ensures var p := RunPass(old(lockDir.locks), records, fates);
            && lockDir.locks == p.locks
            && log == p.log
            && aborted == p.aborted
            && AllWellFormed(p.sent)
            && contract.calls == old(contract.calls) + Submissions(h, p.sent)
  {
    ghost var locks0 := lockDir.locks;
    ghost var calls0 := contract.calls;
    ghost var p := Pass(locks0, [], [], false);
    log, aborted := [], false;
    var i := 0;
    while i < |records| && !aborted
      invariant 0 <= i <= |records|
      invariant p == RunPass(locks0, records[..i], fates[..i])
      invariant lockDir.locks == p.locks && log == p.log && aborted == p.aborted
      invariant AllWellFormed(p.sent) && contract.calls == calls0 + Submissions(h, p.sent)
    {
      RunPassStep(locks0, records, fates, i);
      var entry, threw := VisitRecord(h, lockDir, contract, records[i], fates[i], p, calls0);
      p := Visit(p, records[i], fates[i]);
      if threw {
        aborted := true;
      } else {
        log := log + [entry];
      }
      i := i + 1;
    }
    if aborted {
      AbortedPassIsFinal(locks0, records, fates, i);
    } else {
      assert records[..i] == records && fates[..i] == fates;
    }
  }
}
