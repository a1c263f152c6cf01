/**
 * Transaction batches on the wire, in the Protocol Buffers encoding (sections "Base 128 Varints" and
 * "Length-Delimited Records" of its encoding guide): a message with one field, an `Any`, that holds a
 * type URL and a payload.
 */
module Wire {
  import opened Types

  const U32_LIMIT: nat := 0x1_0000_0000

  // ---------------------------------------------------------------------------------------------
  // Varints
  // ---------------------------------------------------------------------------------------------

  function WriteVarint(n: nat): (b: Bytes)
    ensures |b| == VarintLen(n)
  {
    if n < 128 then [n] else [128 + n % 128] + WriteVarint(n / 128)
  }

  /** The number of groups of seven bits. */
  function VarintLen(n: nat): nat {
    if n < 128 then 1 else 1 + VarintLen(n / 128)
  }

  /** Reads at most `left` bytes; the tenth may hold one bit only, so that the value fits 64 bits. */
  function ReadVarint(b: Bytes, left: nat): (r: Option<(nat, Bytes)>)
    ensures r.Some? ==> |r.value.1| < |b|
  {
    if left == 0 || b == [] then None
    else if b[0] < 128 then
      if left == 1 && b[0] > 1 then None else Some((b[0], b[1..]))
    else
      match ReadVarint(b[1..], left - 1)
      case None => None
      case Some((high, rest)) => Some((b[0] - 128 + 128 * high, rest))
  }

  /** The values that fit `k` bytes when the last of them may hold one bit only. */
  function VarintLimit(k: nat): nat
    requires k > 0
  {
    if k == 1 then 2 else 128 * VarintLimit(k - 1)
  }

  lemma TenBytesHoldU64()
    ensures VarintLimit(10) == U64_LIMIT
  {
    assert VarintLimit(5) == 2 * 128 * 128 * 128 * 128;
  }

  lemma {:induction false} ReadWrittenVarint(n: nat, left: nat, rest: Bytes)
    requires left > 0 && n < VarintLimit(left)
    ensures ReadVarint(WriteVarint(n) + rest, left) == Some((n, rest))
    ensures VarintLen(n) <= left
    decreases left
  {
    var b := WriteVarint(n) + rest;
    if n >= 128 {
      var high := WriteVarint(n / 128);
      ReadWrittenVarint(n / 128, left - 1, rest);
      assert b[0] == 128 + n % 128;
      assert b[1..] == high + rest;
    } else {
      assert b[0] == n;
      assert b[1..] == rest;
    }
  }

  // ---------------------------------------------------------------------------------------------
  // Fields
  // ---------------------------------------------------------------------------------------------

  datatype Field = Field(tag: nat, wire: nat, payload: Bytes)

  const LENGTH_DELIMITED: nat := 2

  function WriteField(tag: nat, payload: Bytes): (b: Bytes)
    requires 0 < tag < 16
    ensures |b| == 1 + VarintLen(|payload|) + |payload|
  {
    [8 * tag + LENGTH_DELIMITED] + WriteVarint(|payload|) + payload
  }

  /** The first `n` bytes, if there are as many. */
  function ReadBytes(b: Bytes, n: nat): Option<(Bytes, Bytes)> {
    if n <= |b| then Some((b[..n], b[n..])) else None
  }

  /** The payload of a field of the given wire type, and what follows it. */
  function ReadPayload(wire: nat, b: Bytes): (r: Option<(Bytes, Bytes)>)
    ensures r.Some? ==> |r.value.1| <= |b|
  {
    match wire
    case 0 => (match ReadVarint(b, 10)
               case None => None
               case Some((_, rest)) => Some(([], rest)))
    case 1 => ReadBytes(b, 8)
    case 2 => (match ReadVarint(b, 10)
               case None => None
               case Some((n, rest)) => ReadBytes(rest, n))
    case 5 => ReadBytes(b, 4)
    case _ => None
  }

  function ReadField(b: Bytes): (r: Option<(Field, Bytes)>)
    ensures r.Some? ==> |r.value.1| < |b|
  {
    match ReadVarint(b, 10)
    case None => None
    case Some((key, rest)) =>
      if key >= U32_LIMIT || key < 8 then None
      else
        match ReadPayload(key % 8, rest)
        case None => None
        case Some((payload, rest)) => Some((Field(key / 8, key % 8, payload), rest))
  }

  function ReadFields(b: Bytes): Option<seq<Field>>
    decreases |b|
  {
    if b == [] then Some([])
    else
      match ReadField(b)
      case None => None
      case Some((field, rest)) =>
        match ReadFields(rest)
        case None => None
        case Some(fields) => Some([field] + fields)
  }

  lemma ReadWrittenField(tag: nat, payload: Bytes, rest: Bytes)
    requires 0 < tag < 16 && |payload| < U64_LIMIT
    ensures ReadField(WriteField(tag, payload) + rest) == Some((Field(tag, LENGTH_DELIMITED, payload), rest))
  {
    var key, tail := 8 * tag + LENGTH_DELIMITED, payload + rest;
    var afterKey := WriteVarint(|payload|) + tail;
    ReadWrittenPayload(payload, rest);
    assert WriteField(tag, payload) + rest == WriteVarint(key) + afterKey;
    TenBytesHoldU64();
    ReadWrittenVarint(key, 10, afterKey);
  }

  lemma ReadWrittenPayload(payload: Bytes, rest: Bytes)
    requires |payload| < U64_LIMIT
    ensures ReadPayload(LENGTH_DELIMITED, WriteVarint(|payload|) + (payload + rest)) == Some((payload, rest))
  {
    TenBytesHoldU64();
    ReadWrittenVarint(|payload|, 10, payload + rest);
    assert (payload + rest)[..|payload|] == payload && (payload + rest)[|payload|..] == rest;
  }

  // ---------------------------------------------------------------------------------------------
  // Text
  // ---------------------------------------------------------------------------------------------

  predicate Continuation(b: Byte) {
    0x80 <= b < 0xC0
  }

  /** The bytes are well-formed UTF-8. */
  predicate ValidUtf8(b: Bytes) {
    if b == [] then true
    else if b[0] < 0x80 then ValidUtf8(b[1..])
    else if 0xC2 <= b[0] < 0xE0 then |b| >= 2 && Continuation(b[1]) && ValidUtf8(b[2..])
    else if 0xE0 <= b[0] < 0xF0 then
      && |b| >= 3 && Continuation(b[1]) && Continuation(b[2])
      && (b[0] == 0xE0 ==> b[1] >= 0xA0) && (b[0] == 0xED ==> b[1] < 0xA0)
      && ValidUtf8(b[3..])
    else
      && 0xF0 <= b[0] < 0xF5
      && |b| >= 4 && Continuation(b[1]) && Continuation(b[2]) && Continuation(b[3])
      && (b[0] == 0xF0 ==> b[1] >= 0x90) && (b[0] == 0xF4 ==> b[1] < 0x90)
      && ValidUtf8(b[4..])
  }

  predicate Ascii(b: Bytes) {
    forall i :: 0 <= i < |b| ==> b[i] < 0x80
  }

  lemma {:induction false} AsciiIsUtf8(b: Bytes)
    requires Ascii(b)
    ensures ValidUtf8(b)
  {
    if b != [] {
      AsciiIsUtf8(b[1..]);
    }
  }

  // ---------------------------------------------------------------------------------------------
  // Batches
  // ---------------------------------------------------------------------------------------------

  /** Empty fields are left out, as the encoding of default values prescribes. */
  function WriteUnlessEmpty(tag: nat, payload: Bytes): Bytes
    requires 0 < tag < 16
  {
    if payload == [] then [] else WriteField(tag, payload)
  }

  function WriteAny(batch: Batch): Bytes {
    WriteUnlessEmpty(1, batch.typeUrl) + WriteUnlessEmpty(2, batch.value)
  }

  function ToNetworkBytes(batch: Batch): Bytes {
    WriteField(1, WriteAny(batch))
  }

  function FieldLen(payload: Bytes): nat {
    if payload == [] then 0 else 1 + VarintLen(|payload|) + |payload|
  }

  /** The size the message reports for itself. */
  function SizeBytes(batch: Batch): nat {
    FieldLen(batch.typeUrl) + FieldLen(batch.value)
  }

  /** Later fields overwrite earlier ones; unknown fields are skipped; known ones have to have the right form. */
  function MergeAny(batch: Batch, fields: seq<Field>): Option<Batch>
    decreases |fields|
  {
    if fields == [] then Some(batch)
    else
      var f := fields[0];
      if f.tag == 1 then
        if f.wire == LENGTH_DELIMITED && ValidUtf8(f.payload)
        then MergeAny(batch.(typeUrl := f.payload), fields[1..]) else None
      else if f.tag == 2 then
        if f.wire == LENGTH_DELIMITED then MergeAny(batch.(value := f.payload), fields[1..]) else None
      else MergeAny(batch, fields[1..])
  }

  /** An embedded message that occurs again is merged into the one already read. */
  function MergeBatch(batch: Option<Batch>, fields: seq<Field>): Option<Option<Batch>>
    decreases |fields|
  {
    if fields == [] then Some(batch)
    else
      var f := fields[0];
      if f.tag != 1 then MergeBatch(batch, fields[1..])
      else if f.wire != LENGTH_DELIMITED then None
      else
        match ReadFields(f.payload)
        case None => None
        case Some(inner) =>
          match MergeAny(if batch.Some? then batch.value else Batch([], []), inner)
          case None => None
          case Some(merged) => MergeBatch(Some(merged), fields[1..])
  }

  /** Decoding fails on malformed bytes and on a message without its one field. */
  function FromNetworkBytes(b: Bytes): Option<Batch> {
    match ReadFields(b)
    case None => None
    case Some(fields) =>
      match MergeBatch(None, fields)
      case None => None
      case Some(batch) => batch
  }

  lemma ReadFieldsOfOne(tag: nat, payload: Bytes, rest: Bytes)
    requires 0 < tag < 16 && |payload| < U64_LIMIT
    ensures ReadFields(WriteField(tag, payload) + rest)
         == match ReadFields(rest)
            case None => None
            case Some(fields) => Some([Field(tag, LENGTH_DELIMITED, payload)] + fields)
  {
    ReadWrittenField(tag, payload, rest);
  }

  lemma ReadWrittenAny(batch: Batch)
    requires ValidUtf8(batch.typeUrl) && SizeBytes(batch) < U64_LIMIT
    ensures ReadFields(WriteAny(batch)).Some?
    ensures MergeAny(Batch([], []), ReadFields(WriteAny(batch)).value) == Some(batch)
  {
    var second := WriteUnlessEmpty(2, batch.value);
    if batch.value != [] {
      ReadFieldsOfOne(2, batch.value, []);
      assert second + [] == second;
      assert [Field(2, LENGTH_DELIMITED, batch.value)] + [] == [Field(2, LENGTH_DELIMITED, batch.value)];
      assert ReadFields(second) == Some([Field(2, LENGTH_DELIMITED, batch.value)]);
    }
    var fields := ReadFields(second).value;
    assert MergeAny(Batch(batch.typeUrl, []), fields) == Some(batch);
    if batch.typeUrl != [] {
      ReadFieldsOfOne(1, batch.typeUrl, second);
      var all := [Field(1, LENGTH_DELIMITED, batch.typeUrl)] + fields;
      assert all[1..] == fields;
    } else {
      assert WriteAny(batch) == second;
    }
  }

  /** The reported size is the size of the embedded message, and the frame around it adds a tag and a length. */
  lemma EncodedSize(batch: Batch)
    ensures |WriteAny(batch)| == SizeBytes(batch)
    ensures |ToNetworkBytes(batch)| == SizeBytes(batch) + 1 + VarintLen(SizeBytes(batch))
  {
  }

  /** Decoding an encoded batch gives it back, whatever its type URL and payload, empty ones included. */
  lemma WireRoundTrip(batch: Batch)
    requires ValidUtf8(batch.typeUrl) && SizeBytes(batch) < U64_LIMIT
    ensures FromNetworkBytes(ToNetworkBytes(batch)) == Some(batch)
  {
    EncodedSize(batch);
    ReadWrittenAny(batch);
    ReadFieldsOfOne(1, WriteAny(batch), []);
    assert ToNetworkBytes(batch) + [] == ToNetworkBytes(batch);
    var fields := [Field(1, LENGTH_DELIMITED, WriteAny(batch))];
    assert fields + [] == fields;
    assert ReadFields(ToNetworkBytes(batch)) == Some(fields);
    assert fields[1..] == [];
    assert MergeBatch(None, fields) == MergeBatch(Some(batch), fields[1..]);
  }

  /** The bytes of a batch with short parts: tag 1 around tag 1 with the type URL and tag 2 with the payload. */
  lemma WireLayout(batch: Batch)
    requires batch.typeUrl != [] && batch.value != [] && |batch.typeUrl| + |batch.value| < 124
    ensures ToNetworkBytes(batch)
         == [0x0A, 4 + |batch.typeUrl| + |batch.value|]
            + [0x0A, |batch.typeUrl|] + batch.typeUrl + [0x12, |batch.value|] + batch.value
  {
    EncodedSize(batch);
    assert WriteVarint(|batch.typeUrl|) == [|batch.typeUrl|];
    assert WriteVarint(|batch.value|) == [|batch.value|];
    assert WriteVarint(|WriteAny(batch)|) == [4 + |batch.typeUrl| + |batch.value|];
  }
}
