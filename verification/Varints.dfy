/** What the bytes of a varint stand for, without reference to how they are read or written. */
module Varints {
  import opened Types
  import opened Wire

  /** 128 to the power `k`. */
  function Power(k: nat): nat {
    if k == 0 then 1 else 128 * Power(k - 1)
  }

  /** The low seven bits of the first `n` bytes, byte `k` weighing 128 to the power `k`. */
  function Weighed(b: Bytes, n: nat): nat
    requires n <= |b|
  {
    if n == 0 then 0 else Weighed(b, n - 1) + (b[n - 1] % 128) * Power(n - 1)
  }

  /** All bytes but the last have their high bit set; the last one of `limit` bytes may be 0 or 1 only. */
  predicate IsVarint(b: Bytes, limit: nat) {
    && 0 < |b| <= limit && b[|b| - 1] < 128
    && (forall i :: 0 <= i < |b| - 1 ==> b[i] >= 128)
    && (|b| == limit ==> b[|b| - 1] <= 1)
  }

  lemma TimesPower(x: nat, k: nat)
    ensures x * Power(k + 1) == 128 * (x * Power(k))
  {
    assert Power(k + 1) == 128 * Power(k);
  }

  lemma {:induction false} WeighedShift(b: Bytes, n: nat)
    requires 0 < n <= |b|
    ensures Weighed(b, n) == b[0] % 128 + 128 * Weighed(b[1..], n - 1)
  {
    if n == 1 {
      assert Weighed(b, 0) == 0 && Power(0) == 1;
    } else {
      WeighedShift(b, n - 1);
      TimesPower(b[n - 1] % 128, n - 2);
      assert b[1..][n - 2] == b[n - 1];
    }
  }

  /** Every varint is read as the number it stands for. */
  lemma {:induction false} VarintsAreRead(v: Bytes, rest: Bytes, limit: nat)
    requires IsVarint(v, limit)
    ensures ReadVarint(v + rest, limit) == Some((Weighed(v, |v|), rest))
    decreases |v|
  {
    WeighedShift(v, |v|);
    var tail := v[1..];
    assert (v + rest)[1..] == tail + rest;
    if |v| == 1 {
      assert tail + rest == rest;
    } else {
      assert IsVarint(tail, limit - 1);
      VarintsAreRead(tail, rest, limit - 1);
    }
  }

  /** Nothing else is read as a varint. */
  lemma {:induction false} OnlyVarintsAreRead(b: Bytes, limit: nat)
    requires ReadVarint(b, limit).Some?
    ensures var (n, rest) := ReadVarint(b, limit).value; var k := |b| - |rest|;
      0 < k <= |b| && rest == b[k..] && IsVarint(b[..k], limit) && n == Weighed(b[..k], k)
    decreases |b|
  {
    var (n, rest) := ReadVarint(b, limit).value;
    var k := |b| - |rest|;
    WeighedShift(b[..k], k);
    if b[0] >= 128 {
      OnlyVarintsAreRead(b[1..], limit - 1);
      assert b[..k][1..] == b[1..][..k - 1];
    } else {
      assert Weighed(b[..k][1..], 0) == 0;
    }
  }

  /** A written varint is one, stands for its number, and is as short as can be. */
  lemma WrittenVarint(n: nat, limit: nat)
    requires limit > 0 && n < VarintLimit(limit)
    ensures var v := WriteVarint(n);
      IsVarint(v, limit) && Weighed(v, |v|) == n && n < Power(|v|) && (|v| > 1 ==> n >= Power(|v| - 1))
  {
    var v := WriteVarint(n);
    ReadWrittenVarint(n, limit, []);
    assert v + [] == v;
    OnlyVarintsAreRead(v, limit);
    assert v[..|v|] == v;
    LengthOfVarint(n);
  }

  lemma {:induction false} LengthOfVarint(n: nat)
    ensures n < Power(VarintLen(n)) && (VarintLen(n) > 1 ==> n >= Power(VarintLen(n) - 1))
  {
    if n >= 128 {
      LengthOfVarint(n / 128);
      assert n / 128 >= 1;
    } else {
      assert Power(1) == 128 * Power(0);
    }
  }

  /** Bytes that all announce another one are not complete. */
  lemma {:induction false} Unfinished(b: Bytes, limit: nat)
    requires forall i :: 0 <= i < |b| ==> b[i] >= 128
    ensures ReadVarint(b, limit) == None
    decreases |b|
  {
    if b != [] && limit > 0 {
      Unfinished(b[1..], limit - 1);
    }
  }

  /** A varint cut short is not read. */
  lemma CutVarint(v: Bytes, k: nat, limit: nat)
    requires IsVarint(v, limit) && k < |v|
    ensures ReadVarint(v[..k], limit) == None
  {
    Unfinished(v[..k], limit);
  }
}
