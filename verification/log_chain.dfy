// The hash chain over the logs of a ledger.
module LogChain {
  import opened Wrappers
  import opened Postings

  type Hash = seq<bv8>

  type Metadata = map<string, string>

  datatype TargetId = AccountId(address: string) | TransactionId(id: nat)

  // The volumes of a transaction, and the dates the storage gives it, are not hashed.
  datatype Transaction = Transaction(
    postings: seq<Posting>, metadata: Metadata, timestamp: int, reference: string, id: Option<nat>,
    insertedAt: int, updatedAt: int, revertedAt: Option<int>,
    postCommitVolumes: map<Key, Volumes>, postCommitEffectiveVolumes: map<Key, Volumes>, template: string)

  datatype Payload =
    | SavedMetadata(targetType: string, targetId: TargetId, metadata: Metadata)
    | CreatedTransaction(transaction: Transaction, accountMetadata: map<string, Metadata>)
    | RevertedTransaction(revertedTransaction: Transaction, revertTransaction: Transaction)
    | DeletedMetadata(targetType: string, targetId: TargetId, key: string)
    | InsertedSchema(schema: string) // the schema, as its JSON text

  datatype LogType = SET_METADATA | NEW_TRANSACTION | REVERTED_TRANSACTION | DELETE_METADATA | INSERTED_SCHEMA

  function TypeOf(p: Payload): LogType {
    match p
    case SavedMetadata(_, _, _) => SET_METADATA
    case CreatedTransaction(_, _) => NEW_TRANSACTION
    case RevertedTransaction(_, _) => REVERTED_TRANSACTION
    case DeletedMetadata(_, _, _) => DELETE_METADATA
    case InsertedSchema(_) => INSERTED_SCHEMA
  }

  datatype TransactionResume = TransactionResume(
    postings: seq<Posting>, metadata: Metadata, timestamp: int, reference: string, id: Option<nat>, reverted: bool)

  datatype Memento =
    | Plain(payload: Payload)
    | Created(transaction: TransactionResume, accountMetadata: map<string, Metadata>)
    | Reverted(revertedTransactionID: nat, transaction: TransactionResume)

  function Resume(tx: Transaction): TransactionResume {
    TransactionResume(tx.postings, tx.metadata, tx.timestamp, tx.reference, tx.id, false)
  }

  // A reverted transaction has been stored, so it has an id.
  predicate HasMemento(p: Payload) {
    p.RevertedTransaction? ==> p.revertedTransaction.id.Some?
  }

  function GetMemento(p: Payload): Memento
    requires HasMemento(p)
  {
    match p
    case CreatedTransaction(tx, accountMetadata) => Created(Resume(tx), accountMetadata)
    case RevertedTransaction(reverted, revert) => Reverted(reverted.id.value, Resume(revert))
    case _ => Plain(p)
  }

  // What is fed to the digest: the previous hash, if there is one, then this record.
  datatype Record = Record(
    kind: LogType, data: Memento, date: int, idempotencyKey: string, id: int, hash: Hash, schemaVersion: string)

  datatype HashInput = HashInput(previous: Option<Hash>, record: Record)

  type Digest = HashInput -> Hash

  // The value of a log.
  datatype Entry = Entry(
    kind: LogType, data: Payload, date: int, idempotencyKey: string, idempotencyHash: string,
    id: Option<nat>, hash: Hash, schemaVersion: string)

  function RecordOf(l: Entry): Record
    requires HasMemento(l.data)
  {
    Record(l.kind, GetMemento(l.data), l.date, l.idempotencyKey, 0, l.hash, l.schemaVersion)
  }

  const UINT64 := 0x1_0000_0000_0000_0000

  function HashOf(digest: Digest, l: Entry, previous: Option<Entry>): Hash
    requires HasMemento(l.data)
  {
    digest(HashInput(if previous.Some? then Some(previous.value.hash) else None, RecordOf(l)))
  }

  function Chained(digest: Digest, l: Entry, previous: Option<Entry>): Entry
    requires HasMemento(l.data)
    requires previous.Some? ==> previous.value.id.Some?
  {
    l.(hash := HashOf(digest, l, previous),
       id := Some(if previous.Some? then (previous.value.id.value + 1) % UINT64 else 1))
  }

  class Log {
    var kind: LogType
    var data: Payload
    var date: int
    var idempotencyKey: string
    var idempotencyHash: string
    var id: Option<nat>
    var hash: Hash
    var schemaVersion: string

    constructor (payload: Payload)
      ensures Value() == Entry(TypeOf(payload), payload, 0, "", "", None, [], "")
    {
      kind, data, date, idempotencyKey, idempotencyHash := TypeOf(payload), payload, 0, "", "";
      id, hash, schemaVersion := None, [], "";
    }

    constructor Copy(l: Entry)
      ensures Value() == l
    {
      kind, data, date, idempotencyKey, idempotencyHash := l.kind, l.data, l.date, l.idempotencyKey, l.idempotencyHash;
      id, hash, schemaVersion := l.id, l.hash, l.schemaVersion;
    }

    function Value(): Entry
      reads this
    {
      Entry(kind, data, date, idempotencyKey, idempotencyHash, id, hash, schemaVersion)
    }

    method ComputeHash(digest: Digest, previous: Log?)
      requires HasMemento(data)
      modifies this`hash
      ensures hash == HashOf(digest, old(Value()), if previous == null then None else Some(old(previous.Value())))
    {
      var before := if previous == null then None else Some(previous.hash);
      hash := digest(HashInput(before, Record(kind, GetMemento(data), date, idempotencyKey, 0, hash, schemaVersion)));
    }

    // A new log; neither the receiver nor the previous log changes.
    method ChainLog(digest: Digest, previous: Log?) returns (ret: Log)
      requires HasMemento(data)
      requires previous != null ==> previous.id.Some?
      ensures fresh(ret)
      ensures ret.Value() == Chained(digest, Value(), if previous == null then None else Some(previous.Value()))
    {
      ret := new Log.Copy(Value());
      ret.ComputeHash(digest, previous);
      if previous != null {
        ret.id := Some((previous.id.value + 1) % UINT64);
      } else {
        ret.id := Some(1);
      }
    }
  }

  // The chain of a list of logs, each behind the one before it.

  predicate Chainable(logs: seq<Entry>) {
    forall l :: l in logs ==> HasMemento(l.data)
  }

  function Chain(digest: Digest, logs: seq<Entry>): (r: seq<Entry>)
    requires Chainable(logs)
    ensures |r| == |logs| && forall l :: l in r ==> l.id.Some?
  {
    if logs == [] then []
    else
      var n := |logs| - 1;
      var before := Chain(digest, logs[..n]);
      before + [Chained(digest, logs[n], if n == 0 then None else Some(before[n - 1]))]
  }

  lemma {:induction false} ChainPrefix(digest: Digest, logs: seq<Entry>, n: nat)
    requires Chainable(logs) && n <= |logs|
    ensures Chain(digest, logs)[..n] == Chain(digest, logs[..n])
  {
    if n < |logs| {
      ChainPrefix(digest, logs[..|logs| - 1], n);
      assert logs[..|logs| - 1][..n] == logs[..n];
    } else {
      assert logs[..n] == logs;
    }
  }

  lemma {:induction false} ChainAt(digest: Digest, logs: seq<Entry>, n: nat)
    requires Chainable(logs) && n < |logs|
    ensures var c := Chain(digest, logs);
            c[n] == Chained(digest, logs[n], if n == 0 then None else Some(c[n - 1]))
  {
    ChainPrefix(digest, logs, n + 1);
    ChainPrefix(digest, logs, n);
    var m := logs[..n + 1];
    assert m[..n] == logs[..n];
    assert Chain(digest, m)[n] == Chain(digest, logs)[n];
  }

  lemma {:induction false} NextModulo(n: nat)
    ensures (n % UINT64 + 1) % UINT64 == (n + 1) % UINT64
  {
  }

  // The ids count from 1, in 64 bits.
  lemma {:induction false} IdsCount(digest: Digest, logs: seq<Entry>, n: nat)
    requires Chainable(logs) && n < |logs|
    ensures Chain(digest, logs)[n].id == Some((n + 1) % UINT64)
  {
    ChainAt(digest, logs, n);
    if n > 0 {
      IdsCount(digest, logs, n - 1);
      NextModulo(n);
    }
  }

  ghost predicate Injective(digest: Digest) {
    forall a, b :: digest(a) == digest(b) ==> a == b
  }

  // What the hashes of a list of logs cover.
  function Records(logs: seq<Entry>): seq<Record>
    requires Chainable(logs)
  {
    seq(|logs|, i requires 0 <= i < |logs| => RecordOf(logs[i]))
  }

  lemma {:induction false} RecordsOfMore(logs: seq<Entry>)
    requires Chainable(logs) && logs != []
    ensures Records(logs) == Records(logs[..|logs| - 1]) + [RecordOf(logs[|logs| - 1])]
  {
  }

  function LastHash(digest: Digest, logs: seq<Entry>): Option<Hash>
    requires Chainable(logs)
  {
    if logs == [] then None else Some(Chain(digest, logs)[|logs| - 1].hash)
  }

  lemma {:induction false} LastHashStep(digest: Digest, logs: seq<Entry>)
    requires Chainable(logs) && logs != []
    ensures var n := |logs| - 1;
            LastHash(digest, logs) == Some(digest(HashInput(LastHash(digest, logs[..n]), RecordOf(logs[n]))))
  {
    var n := |logs| - 1;
    ChainAt(digest, logs, n);
    ChainPrefix(digest, logs, n);
  }

  lemma {:induction false} SameEnds<T>(a: seq<T>, x: T, b: seq<T>, y: T)
    ensures a + [x] == b + [y] <==> a == b && x == y
  {
    if a + [x] == b + [y] {
      assert (a + [x])[|a|] == x && (b + [y])[|b|] == y;
      assert (a + [x])[..|a|] == a && (b + [y])[..|b|] == b;
    }
  }

  lemma {:induction false} LastHashesAgree(digest: Digest, a: seq<Entry>, b: seq<Entry>)
    requires Chainable(a) && Chainable(b) && Injective(digest)
    ensures LastHash(digest, a) == LastHash(digest, b) <==> Records(a) == Records(b)
    decreases |a|
  {
    if a != [] && b != [] {
      var m, n := |a| - 1, |b| - 1;
      LastHashesAgree(digest, a[..m], b[..n]);
      LastHashStep(digest, a);
      LastHashStep(digest, b);
      RecordsOfMore(a);
      RecordsOfMore(b);
      SameEnds(Records(a[..m]), RecordOf(a[m]), Records(b[..n]), RecordOf(b[n]));
    }
  }

  // What two logs must have in common.

  predicate SameTransaction(a: Transaction, b: Transaction) {
    && a.postings == b.postings && a.metadata == b.metadata && a.timestamp == b.timestamp
    && a.reference == b.reference && a.id == b.id
  }

  // A created transaction counts without its volumes, template and storage dates; of a
  // reverted one only its id counts; everything else counts in full.
  predicate SameDecision(p: Payload, q: Payload) {
    match p
    case CreatedTransaction(tx, accountMetadata) =>
      q.CreatedTransaction? && SameTransaction(tx, q.transaction) && accountMetadata == q.accountMetadata
    case RevertedTransaction(reverted, revert) =>
      && q.RevertedTransaction? && reverted.id == q.revertedTransaction.id
      && SameTransaction(revert, q.revertTransaction)
    case _ => p == q
  }

  // The same decision is one of the same type.
  lemma {:induction false} DecisionsTyped(p: Payload, q: Payload)
    ensures SameDecision(p, q) ==> TypeOf(p) == TypeOf(q)
    ensures TypeOf(p) == TypeOf(q) ==> (p.CreatedTransaction? <==> q.CreatedTransaction?)
    ensures TypeOf(p) == TypeOf(q) ==> (p.RevertedTransaction? <==> q.RevertedTransaction?)
    ensures TypeOf(p) == TypeOf(q) ==> (p.SavedMetadata? <==> q.SavedMetadata?)
    ensures TypeOf(p) == TypeOf(q) ==> (p.DeletedMetadata? <==> q.DeletedMetadata?)
  {
  }

  predicate SameLog(a: Entry, b: Entry) {
    && a.kind == b.kind && SameDecision(a.data, b.data) && a.date == b.date
    && a.idempotencyKey == b.idempotencyKey && a.schemaVersion == b.schemaVersion && a.hash == b.hash
  }

  lemma {:induction false} ResumesAgreeIff(a: Transaction, b: Transaction)
    ensures Resume(a) == Resume(b) <==> SameTransaction(a, b)
    ensures !Resume(a).reverted
  {
  }

  lemma {:induction false} MementosAgreeIff(p: Payload, q: Payload)
    requires HasMemento(p) && HasMemento(q)
    ensures GetMemento(p) == GetMemento(q) <==> SameDecision(p, q)
  {
    if p.CreatedTransaction? && q.CreatedTransaction? {
      ResumesAgreeIff(p.transaction, q.transaction);
    } else if p.RevertedTransaction? && q.RevertedTransaction? {
      ResumesAgreeIff(p.revertTransaction, q.revertTransaction);
    }
  }

  predicate SameLogs(a: seq<Entry>, b: seq<Entry>) {
    |a| == |b| && forall i :: 0 <= i < |a| ==> SameLog(a[i], b[i])
  }

  lemma {:induction false} RecordsAgreeIff(a: seq<Entry>, b: seq<Entry>)
    requires Chainable(a) && Chainable(b)
    ensures Records(a) == Records(b) <==> SameLogs(a, b)
  {
    forall i | 0 <= i < |a| && i < |b|
      ensures Records(a)[i] == Records(b)[i] <==> SameLog(a[i], b[i])
    {
      MementosAgreeIff(a[i].data, b[i].data);
    }
    assert |Records(a)| == |a| && |Records(b)| == |b|;
  }

  lemma {:induction false} LastHashIs(digest: Digest, logs: seq<Entry>, n: nat)
    requires Chainable(logs) && n < |logs|
    ensures LastHash(digest, logs[..n + 1]) == Some(Chain(digest, logs)[n].hash)
  {
    ChainPrefix(digest, logs, n + 1);
    assert Chain(digest, logs[..n + 1])[n] == Chain(digest, logs)[n];
  }

  // Main result: two logs of two chains have the same hash if and only if as many logs
  // lead to them and, one by one, these have the same type, decision, date, idempotency
  // key, schema version and earlier hash.
  lemma {:induction false} HashesAgreeIff(digest: Digest, a: seq<Entry>, m: nat, b: seq<Entry>, n: nat)
    requires Chainable(a) && Chainable(b) && Injective(digest)
    requires m < |a| && n < |b|
    ensures Chain(digest, a)[m].hash == Chain(digest, b)[n].hash <==> SameLogs(a[..m + 1], b[..n + 1])
  {
    LastHashIs(digest, a, m);
    LastHashIs(digest, b, n);
    LastHashesAgree(digest, a[..m + 1], b[..n + 1]);
    RecordsAgreeIff(a[..m + 1], b[..n + 1]);
  }

  // A change to one of these changes the hash of that log and of every later one.
  lemma {:induction false} ChangesSpread(digest: Digest, a: seq<Entry>, b: seq<Entry>, i: nat, k: nat)
    requires Chainable(a) && Chainable(b) && Injective(digest)
    requires i <= k < |a| && k < |b|
    requires !SameLog(a[i], b[i])
    ensures Chain(digest, a)[k].hash != Chain(digest, b)[k].hash
  {
    HashesAgreeIff(digest, a, k, b, k);
    assert a[..k + 1][i] == a[i] && b[..k + 1][i] == b[i];
  }
}
