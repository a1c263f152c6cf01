/** The values exchanged by the mempool, the application, and the gossip network. */
module Types {

  type Byte = x: int | 0 <= x < 256

  type Bytes = seq<Byte>

  /** One more than the largest unsigned 64-bit number. */
  const U64_LIMIT: nat := 0x1_0000_0000_0000_0000

  /** An undecoded transaction. */
  type RawTx = Bytes

  /** The key the application assigns to a transaction it has checked. */
  type TxHash = Bytes

  /** The identity of a single-use reply port handed over with an `Add` request. */
  type Port = nat

  datatype Option<+T> = None | Some(value: T)

  /** What the application says about a transaction it could decode. */
  datatype Outcome = Outcome(hash: TxHash, valid: bool)

  datatype CheckResult = Checked(outcome: Outcome) | AppError(reason: string)

  datatype MempoolError =
    | MempoolFull(currentSize: nat, maxSize: nat)
    | InvalidTransaction(reason: string)
    | TxAlreadyExists(hash: TxHash)

  /** What is sent on a reply port. */
  datatype Answer = Success(outcome: Outcome) | Failure(error: MempoolError)

  /** The protobuf `Any` that travels as a transaction batch. */
  datatype Batch = Batch(typeUrl: Bytes, value: Bytes)

  datatype Config = Config(maxTxsBytes: nat, maxTxsPerBlock: nat, maxPoolSize: nat)

  /** The elements of a sequence, as a set. */
  function Elements<T(==)>(s: seq<T>): set<T> {
    set x | x in s
  }

  predicate Distinct<T(==)>(s: seq<T>) {
    forall i, j :: 0 <= i < j < |s| ==> s[i] != s[j]
  }

  lemma {:induction false} DistinctCardinality<T>(s: seq<T>)
    requires Distinct(s)
    ensures |Elements(s)| == |s|
  {
    if s == [] {
      assert Elements(s) == {};
    } else {
      var last := |s| - 1;
      var front := s[..last];
      DistinctCardinality(front);
      assert s == front + [s[last]];
      assert Elements(s) == Elements(front) + {s[last]};
      assert s[last] !in front;
    }
  }

  lemma SubsetCardinality<T>(a: set<T>, b: set<T>)
    requires a <= b
    ensures |a| <= |b|
    ensures |a| == |b| ==> a == b
  {
    assert b == a + (b - a);
    assert |b| == |a| + |b - a|;
  }

  lemma Associates<T>(a: seq<T>, b: seq<T>, c: seq<T>)
    ensures (a + b) + c == a + (b + c)
  {
  }
}
