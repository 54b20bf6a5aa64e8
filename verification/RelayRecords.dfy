/** Idempotent starts: what a committed record guarantees until it expires, and what an expired one that was not
    cleaned up does not. */
module RelayRecords {
  import opened RelayStore

  /** The transactions that read record expiry against the clock do so before `expiry`. */
  predicate Before(tx: Tx, expiry: int) {
    match tx
    case StartTx(_, now) => now < expiry
    case CleanupTx(now) => now < expiry
    case _ => true
  }

  lemma RecordStays(t: Tables, tx: Tx, k: RecordKey)
    requires k in t.records && Before(tx, t.records[k].expiresAt)
    ensures k in Commit(t, tx).records && Commit(t, tx).records[k] == t.records[k]
  {
  }

  lemma {:induction false} RecordsLast(t: Tables, txs: seq<Tx>, k: RecordKey)
    requires k in t.records && forall tx | tx in txs :: Before(tx, t.records[k].expiresAt)
    ensures k in CommitAll(t, txs).records && CommitAll(t, txs).records[k] == t.records[k]
  {
    if txs != [] {
      RecordsLast(t, txs[..|txs| - 1], k);
      RecordStays(CommitAll(t, txs[..|txs| - 1]), txs[|txs| - 1], k);
    }
  }

  /** After a start committed a new record, and whatever else commits until it expires, cleanups included, a start with
      the same user and key changes nothing: it returns the stored response, or a mismatch for another hash. */
  lemma StartIsIdempotent(t: Tables, first: StartInput, now: int, others: seq<Tx>, again: StartInput, later: int)
    requires RecordKey(first.user, first.key) !in t.records
    requires again.user == first.user && again.key == first.key
    requires later < now + RECORD_LIFETIME_MS && forall tx | tx in others :: Before(tx, now + RECORD_LIFETIME_MS)
    ensures !StartOrGet(t, first, now).1.Mismatch?
    ensures var t' := CommitAll(StartOrGet(t, first, now).0, others);
      StartOrGet(t', again, later) ==
      (t', if again.hash == first.hash then Found(StartOrGet(t, first, now).1.session) else Mismatch)
  {
    RecordsLast(StartOrGet(t, first, now).0, others, RecordKey(first.user, first.key));
  }

  /** A transaction at `later` or before that does not start with key `k`. */
  predicate LeavesKey(tx: Tx, k: RecordKey, later: int) {
    match tx
    case StartTx(input, _) => RecordKey(input.user, input.key) != k
    case CleanupTx(now) => now <= later
    case _ => true
  }

  lemma KeyIsLeft(t: Tables, tx: Tx, k: RecordKey, later: int)
    requires LeavesKey(tx, k, later)
    ensures var t' := Commit(t, tx);
      && (k in t'.records ==> k in t.records && t'.records[k] == t.records[k])
      && (k in t.records && t.records[k].expiresAt > later ==> k in t'.records)
  {
  }

  lemma {:induction false} RecordWaits(t: Tables, txs: seq<Tx>, k: RecordKey, later: int)
    requires k in t.records && forall tx | tx in txs :: LeavesKey(tx, k, later)
    ensures var t' := CommitAll(t, txs);
      (k in t'.records ==> t'.records[k] == t.records[k]) && (t.records[k].expiresAt > later ==> k in t'.records)
  {
    if txs != [] {
      var front, tx := txs[..|txs| - 1], txs[|txs| - 1];
      RecordWaits(t, front, k, later);
      KeyIsLeft(CommitAll(t, front), tx, k, later);
    }
  }

  /** Whatever else commits in between, the record protects a retry within the hour exactly when the key had no record
      before, or one that has not expired by then: reusing an expired record does not renew it. */
  lemma RetryIsProtectedExactly(t: Tables, input: StartInput, now: int, others: seq<Tx>, later: int)
    requires now <= later < now + RECORD_LIFETIME_MS && !StartOrGet(t, input, now).1.Mismatch?
    requires forall tx | tx in others :: LeavesKey(tx, RecordKey(input.user, input.key), later)
    ensures var (t1, r) := StartOrGet(t, input, now);
      var t', k := CommitAll(t1, others), RecordKey(input.user, input.key);
      (FreshRecord(t', k, later) && t'.records[k].hash == input.hash && t'.records[k].response == r.session) <==>
      (k !in t.records || t.records[k].expiresAt > later)
  {
    RecordWaits(StartOrGet(t, input, now).0, others, RecordKey(input.user, input.key), later);
  }

  lemma HashStays(t: Tables, tx: Tx, k: RecordKey)
    requires k in t.records && !tx.CleanupTx?
    ensures var t' := Commit(t, tx);
      k in t'.records && t'.records[k].hash == t.records[k].hash && t'.records[k].expiresAt == t.records[k].expiresAt
  {
  }

  /** Once expired and not cleaned up, a record never tells two requests apart again, whatever starts reuse its key. */
  lemma {:induction false} ExpiredRecordForgets(t: Tables, k: RecordKey, txs: seq<Tx>, input: StartInput, later: int)
    requires k in t.records && input.user == k.user && input.key == k.key && later >= t.records[k].expiresAt
    requires forall tx | tx in txs :: !tx.CleanupTx?
    ensures k in CommitAll(t, txs).records && CommitAll(t, txs).records[k].expiresAt == t.records[k].expiresAt
    ensures CommitAll(t, txs).records[k].hash == t.records[k].hash
    ensures !StartOrGet(CommitAll(t, txs), input, later).1.Mismatch?
  {
    if txs != [] {
      var front, tx := txs[..|txs| - 1], txs[|txs| - 1];
      ExpiredRecordForgets(t, k, front, input, later);
      HashStays(CommitAll(t, front), tx, k);
    }
  }

  /** Removing expired records changes no answer to a start and creates no other session. */
  lemma CleanupChangesNoAnswer(t: Tables, now: int, input: StartInput, later: int)
    requires now <= later
    ensures var (t1, r1) := StartOrGet(t, input, later);
      var (t2, r2) := StartOrGet(Cleanup(t, now), input, later);
      r1 == r2 && t1.sessions == t2.sessions && t1.relays == t2.relays
  {
    var k, t' := RecordKey(input.user, input.key), Cleanup(t, now);
    assert FreshRecord(t', k, later) <==> FreshRecord(t, k, later);
    if LiveOf(t.sessions, input.user).Some? {
      LiveOfFinds(t.sessions, input.user);
      assert Show(t', LiveOf(t.sessions, input.user).value) == Show(t, LiveOf(t.sessions, input.user).value);
    }
  }

  /** What a cleanup does change: a start that reuses an expired key stores its own hash for a new hour, where without
      the cleanup the old hash and the old expiry stay. */
  lemma CleanupRenewsKey(t: Tables, now: int, input: StartInput, later: int)
    requires now <= later
    requires var k := RecordKey(input.user, input.key); k in t.records && t.records[k].expiresAt <= now
    ensures var k := RecordKey(input.user, input.key);
      var r1, r2 := StartOrGet(t, input, later).0.records, StartOrGet(Cleanup(t, now), input, later).0.records;
      && k in r1 && r1[k].hash == t.records[k].hash && r1[k].expiresAt == t.records[k].expiresAt
      && k in r2 && r2[k].hash == input.hash && r2[k].expiresAt == later + RECORD_LIFETIME_MS
  {
    var k, t' := RecordKey(input.user, input.key), Cleanup(t, now);
    assert k !in t'.records && !FreshRecord(t, k, later) && !FreshRecord(t', k, later);
  }
}
