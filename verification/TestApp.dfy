/** The test application: transactions are unsigned 64-bit numbers in little-endian bytes. */
module TestApp {
  import opened Types

  type U64 = x: int | 0 <= x < U64_LIMIT

  /** The number of values `k` bytes can hold. */
  function Limit(k: nat): nat {
    if k == 0 then 1 else 256 * Limit(k - 1)
  }

  /** The `k` low-order bytes of a number, least significant first. */
  function ToLittleEndian(n: nat, k: nat): (b: Bytes)
    ensures |b| == k
  {
    if k == 0 then [] else [n % 256] + ToLittleEndian(n / 256, k - 1)
  }

  function FromLittleEndian(b: Bytes): (n: nat)
    ensures n < Limit(|b|)
  {
    if b == [] then 0 else b[0] + 256 * FromLittleEndian(b[1..])
  }

  lemma {:induction false} DecodeEncode(n: nat, k: nat)
    requires n < Limit(k)
    ensures FromLittleEndian(ToLittleEndian(n, k)) == n
  {
    if k > 0 {
      DecodeEncode(n / 256, k - 1);
      assert ToLittleEndian(n, k)[1..] == ToLittleEndian(n / 256, k - 1);
    }
  }

  lemma {:induction false} EncodeDecode(b: Bytes)
    ensures ToLittleEndian(FromLittleEndian(b), |b|) == b
  {
    if b != [] {
      EncodeDecode(b[1..]);
      assert FromLittleEndian(b) / 256 == FromLittleEndian(b[1..]);
      assert b == [b[0]] + b[1..];
    }
  }

  /** The first `n` bytes, each times its weight: byte `k` weighs 256 to the power `k`. */
  function Weighted(b: Bytes, n: nat): nat
    requires n <= |b|
  {
    if n == 0 then 0 else Weighted(b, n - 1) + b[n - 1] * Limit(n - 1)
  }

  lemma TimesLimit(x: nat, k: nat)
    ensures x * Limit(k + 1) == 256 * (x * Limit(k))
  {
    assert Limit(k + 1) == 256 * Limit(k);
  }

  lemma {:induction false} WeightedShift(b: Bytes, n: nat)
    requires 0 < n <= |b|
    ensures Weighted(b, n) == b[0] + 256 * Weighted(b[1..], n - 1)
  {
    if n == 1 {
      assert Weighted(b, 0) == 0 && Limit(0) == 1;
    } else {
      WeightedShift(b, n - 1);
      TimesLimit(b[n - 1], n - 2);
      assert b[1..][n - 2] == b[n - 1];
    }
  }

  /** The number that bytes stand for is the sum of the bytes, byte `k` times 256 to the power `k`. */
  lemma {:induction false} LittleEndianWeights(b: Bytes)
    ensures FromLittleEndian(b) == Weighted(b, |b|)
  {
    if b != [] {
      LittleEndianWeights(b[1..]);
      WeightedShift(b, |b|);
    }
  }

  lemma LimitOfEightBytes()
    ensures Limit(8) == U64_LIMIT
  {
    assert Limit(4) == 0x1_0000_0000;
  }

  datatype TestTx = TestTx(id: U64)

  datatype TestTxHash = TestTxHash(id: U64)

  datatype TestOutcome = Success(hash: TestTxHash) | Error(hash: TestTxHash, reason: string)

  datatype Decoded = Ok(tx: TestTx) | Err(reason: string)

  function Serialize(tx: TestTx): RawTx {
    ToLittleEndian(tx.id, 8)
  }

  function Deserialize(bytes: Bytes): Decoded {
    if |bytes| != 8 then Err("Transaction deserialization failed: Expected 8 bytes for TestTx deserialization")
    else
      LimitOfEightBytes();
      Ok(TestTx(FromLittleEndian(bytes)))
  }

  function HashOf(tx: TestTx): TestTxHash {
    TestTxHash(tx.id)
  }

  /** The hash as the mempool sees it. */
  function ToTxHash(h: TestTxHash): TxHash {
    ToLittleEndian(h.id, 8)
  }

  /** The codec is a bijection between transactions and strings of eight bytes. */
  lemma CodecIsBijection(tx: TestTx, bytes: Bytes)
    ensures Deserialize(Serialize(tx)) == Ok(tx)
    ensures Deserialize(bytes).Ok? <==> |bytes| == 8
    ensures Deserialize(bytes).Ok? ==> Serialize(Deserialize(bytes).tx) == bytes
  {
    LimitOfEightBytes();
    DecodeEncode(tx.id, 8);
    if |bytes| == 8 {
      EncodeDecode(bytes);
    }
  }

  const FORBIDDEN: U64 := 9999

  /** The verdict of the application, in the form the mempool receives it. */
  function CheckTx(tx: RawTx): CheckResult {
    match Deserialize(tx)
    case Err(reason) => AppError(reason)
    case Ok(test) =>
      var outcome :=
        if test.id == FORBIDDEN then TestOutcome.Error(HashOf(test), "Transaction 9999 is not allowed")
        else TestOutcome.Success(HashOf(test));
      Checked(Outcome(ToTxHash(outcome.hash), outcome.Success?))
  }

  /** A transaction is accepted exactly when it has eight bytes and is not 9999, and its hash is its own bytes. */
  lemma CheckTxMeaning(tx: RawTx)
    ensures CheckTx(tx).Checked? <==> |tx| == 8
    ensures |tx| != 8 ==>
      CheckTx(tx) == AppError("Transaction deserialization failed: Expected 8 bytes for TestTx deserialization")
    ensures CheckTx(tx).Checked? ==> CheckTx(tx).outcome.hash == tx
    ensures CheckTx(tx).Checked? && CheckTx(tx).outcome.valid <==> |tx| == 8 && tx != Serialize(TestTx(FORBIDDEN))
  {
    CodecIsBijection(TestTx(FORBIDDEN), tx);
  }
}
