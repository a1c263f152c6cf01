/** Which bytes are decoded, and to what: the fields of a message, what they mean, and what is rejected. */
module Decoding {
  import opened Types
  import opened Wire
  import opened Varints

  // ---------------------------------------------------------------------------------------------
  // Fields of every kind
  // ---------------------------------------------------------------------------------------------

  /** A field as a sender may write it. */
  datatype Item =
    | Number(tag: nat, n: nat)
    | Eight(tag: nat, bytes: Bytes)
    | Text(tag: nat, bytes: Bytes)
    | Four(tag: nat, bytes: Bytes)

  const TAG_LIMIT: nat := 0x2000_0000

  predicate Writable(f: Item) {
    && 0 < f.tag < TAG_LIMIT
    && match f
       case Number(_, n) => n < U64_LIMIT
       case Eight(_, b) => |b| == 8
       case Text(_, b) => |b| < U64_LIMIT
       case Four(_, b) => |b| == 4
  }

  function WireType(f: Item): nat {
    match f
    case Number(_, _) => 0
    case Eight(_, _) => 1
    case Text(_, _) => 2
    case Four(_, _) => 5
  }

  function Body(f: Item): Bytes {
    match f
    case Number(_, n) => WriteVarint(n)
    case Eight(_, b) => b
    case Text(_, b) => WriteVarint(|b|) + b
    case Four(_, b) => b
  }

  function WriteItem(f: Item): (b: Bytes)
    ensures |b| > 0
  {
    WriteVarint(8 * f.tag + WireType(f)) + Body(f)
  }

  function WriteItems(items: seq<Item>): Bytes {
    if items == [] then [] else WriteItem(items[0]) + WriteItems(items[1..])
  }

  /** The item as the reader sees it. */
  function Seen(f: Item): Field {
    Field(f.tag, WireType(f), if f.Number? then [] else f.bytes)
  }

  function AllSeen(items: seq<Item>): seq<Field> {
    seq(|items|, i requires 0 <= i < |items| => Seen(items[i]))
  }

  predicate AllWritable(items: seq<Item>) {
    forall f :: f in items ==> Writable(f)
  }

  lemma BodyIsRead(f: Item, rest: Bytes)
    requires Writable(f)
    ensures ReadPayload(WireType(f), Body(f) + rest) == Some((Seen(f).payload, rest))
  {
    match f
    case Number(_, n) =>
      TenBytesHoldU64();
      ReadWrittenVarint(n, 10, rest);
    case Text(_, b) =>
      ReadWrittenPayload(b, rest);
      Associates(WriteVarint(|b|), b, rest);
    case _ =>
      assert (f.bytes + rest)[..|f.bytes|] == f.bytes && (f.bytes + rest)[|f.bytes|..] == rest;
  }

  lemma KeyIsRead(f: Item, rest: Bytes)
    requires Writable(f)
    ensures ReadVarint(WriteItem(f) + rest, 10) == Some((8 * f.tag + WireType(f), Body(f) + rest))
  {
    TenBytesHoldU64();
    ReadWrittenVarint(8 * f.tag + WireType(f), 10, Body(f) + rest);
    Associates(WriteVarint(8 * f.tag + WireType(f)), Body(f), rest);
  }

  lemma ItemIsRead(f: Item, rest: Bytes)
    requires Writable(f)
    ensures ReadField(WriteItem(f) + rest) == Some((Seen(f), rest))
  {
    KeyIsRead(f, rest);
    BodyIsRead(f, rest);
  }

  lemma SeenFirst(items: seq<Item>, more: seq<Field>)
    requires items != []
    ensures AllSeen(items) + more == [Seen(items[0])] + (AllSeen(items[1..]) + more)
  {
  }

  lemma FieldFirst(f: Item, tail: Bytes)
    requires Writable(f)
    ensures ReadFields(WriteItem(f) + tail)
         == match ReadFields(tail)
            case None => None
            case Some(more) => Some([Seen(f)] + more)
  {
    ItemIsRead(f, tail);
  }

  /** Written fields are read in order, whatever comes after them. */
  lemma {:induction false} ItemsAreRead(items: seq<Item>, rest: Bytes)
    requires AllWritable(items)
    ensures ReadFields(WriteItems(items) + rest)
         == match ReadFields(rest)
            case None => None
            case Some(more) => Some(AllSeen(items) + more)
    decreases |items|
  {
    if items == [] {
      assert WriteItems(items) + rest == rest;
      assert ReadFields(rest).Some? ==> AllSeen(items) + ReadFields(rest).value == ReadFields(rest).value;
    } else {
      FieldFirst(items[0], WriteItems(items[1..]) + rest);
      Associates(WriteItem(items[0]), WriteItems(items[1..]), rest);
      ItemsAreRead(items[1..], rest);
      if ReadFields(rest).Some? {
        SeenFirst(items, ReadFields(rest).value);
      }
    }
  }

  lemma MessageIsRead(items: seq<Item>)
    requires AllWritable(items)
    ensures ReadFields(WriteItems(items)) == Some(AllSeen(items))
  {
    ItemsAreRead(items, []);
    assert WriteItems(items) + [] == WriteItems(items) && AllSeen(items) + [] == AllSeen(items);
  }

  // ---------------------------------------------------------------------------------------------
  // What the fields mean
  // ---------------------------------------------------------------------------------------------

  /** The last payload under the tag, or the given one if there is none. */
  ghost predicate IsLast(fields: seq<Field>, tag: nat, otherwise: Bytes, payload: Bytes) {
    || ((forall f :: f in fields ==> f.tag != tag) && payload == otherwise)
    || exists k :: 0 <= k < |fields| && fields[k].tag == tag && fields[k].payload == payload
                   && forall l :: k < l < |fields| ==> fields[l].tag != tag
  }

  /** The field is one a type URL and a payload may have, or an unknown one. */
  predicate Fits(f: Field) {
    && (f.tag == 1 ==> f.wire == LENGTH_DELIMITED && ValidUtf8(f.payload))
    && (f.tag == 2 ==> f.wire == LENGTH_DELIMITED)
  }

  lemma LastOfRest(fields: seq<Field>, tag: nat, otherwise: Bytes, payload: Bytes)
    requires fields != []
    requires IsLast(fields[1..], tag, if fields[0].tag == tag then fields[0].payload else otherwise, payload)
    ensures IsLast(fields, tag, otherwise, payload)
  {
    var rest := fields[1..];
    if k :| 0 <= k < |rest| && rest[k].tag == tag && rest[k].payload == payload
            && forall l :: k < l < |rest| ==> rest[l].tag != tag {
      assert fields[k + 1] == rest[k];
      assert forall l :: k + 1 < l < |fields| ==> fields[l] == rest[l - 1];
    } else {
      assert forall l :: 0 < l < |fields| ==> fields[l] == rest[l - 1] && rest[l - 1] in rest;
      assert fields == [fields[0]] + rest;
    }
  }

  /** The last field of each kind wins, and all of them have to fit. */
  lemma {:induction false} AnyMeaning(batch: Batch, fields: seq<Field>)
    ensures MergeAny(batch, fields).Some? <==> forall f :: f in fields ==> Fits(f)
    ensures MergeAny(batch, fields).Some? ==>
      && IsLast(fields, 1, batch.typeUrl, MergeAny(batch, fields).value.typeUrl)
      && IsLast(fields, 2, batch.value, MergeAny(batch, fields).value.value)
    decreases |fields|
  {
    if fields != [] {
      var f, rest := fields[0], fields[1..];
      assert fields == [f] + rest;
      if Fits(f) {
        var next := if f.tag == 1 then batch.(typeUrl := f.payload)
                    else if f.tag == 2 then batch.(value := f.payload) else batch;
        AnyMeaning(next, rest);
        if MergeAny(next, rest).Some? {
          LastOfRest(fields, 1, batch.typeUrl, MergeAny(next, rest).value.typeUrl);
          LastOfRest(fields, 2, batch.value, MergeAny(next, rest).value.value);
        }
      }
    }
  }

  /** The fields inside all embedded messages, one after the other. */
  function Inner(fields: seq<Field>): seq<Field> {
    if fields == [] then []
    else
      (if fields[0].tag == 1 && ReadFields(fields[0].payload).Some? then ReadFields(fields[0].payload).value else [])
      + Inner(fields[1..])
  }

  /** The embedded message has the right form and its bytes are fields. */
  predicate Opens(f: Field) {
    f.tag == 1 ==> f.wire == LENGTH_DELIMITED && ReadFields(f.payload).Some?
  }

  ghost predicate AllOpen(fields: seq<Field>) {
    forall f :: f in fields ==> Opens(f)
  }

  /** There is an embedded message. */
  ghost predicate HasBatch(fields: seq<Field>) {
    exists f :: f in fields && f.tag == 1
  }

  lemma {:induction false} MergeInParts(batch: Batch, a: seq<Field>, b: seq<Field>)
    ensures MergeAny(batch, a + b)
         == match MergeAny(batch, a)
            case None => None
            case Some(next) => MergeAny(next, b)
    decreases |a|
  {
    if a == [] {
      assert a + b == b;
    } else {
      assert (a + b)[1..] == a[1..] + b;
      var f := a[0];
      var next := if f.tag == 1 then batch.(typeUrl := f.payload)
                  else if f.tag == 2 then batch.(value := f.payload) else batch;
      MergeInParts(next, a[1..], b);
    }
  }

  function OrEmpty(batch: Option<Batch>): Batch {
    match batch
    case None => Batch([], [])
    case Some(b) => b
  }

  lemma FirstField(fields: seq<Field>)
    requires fields != []
    ensures AllOpen(fields) <==> Opens(fields[0]) && AllOpen(fields[1..])
    ensures HasBatch(fields) <==> fields[0].tag == 1 || HasBatch(fields[1..])
  {
    assert fields == [fields[0]] + fields[1..];
    if fields[0].tag != 1 && HasBatch(fields) {
      var f :| f in fields && f.tag == 1;
      assert f in fields[1..];
    }
  }

  /** Embedded messages are merged as if all their fields were in one. */
  lemma {:induction false} BatchMeaning(batch: Option<Batch>, fields: seq<Field>)
    ensures MergeBatch(batch, fields)
         == if !AllOpen(fields) || MergeAny(OrEmpty(batch), Inner(fields)) == None then None
            else if batch == None && !HasBatch(fields) then Some(None)
            else Some(MergeAny(OrEmpty(batch), Inner(fields)))
    decreases |fields|
  {
    if fields != [] {
      var f, rest := fields[0], fields[1..];
      FirstField(fields);
      if f.tag != 1 {
        assert Inner(fields) == Inner(rest);
        BatchMeaning(batch, rest);
      } else if Opens(f) {
        var inner := ReadFields(f.payload).value;
        MergeInParts(OrEmpty(batch), inner, Inner(rest));
        if MergeAny(OrEmpty(batch), inner).Some? {
          BatchMeaning(Some(MergeAny(OrEmpty(batch), inner).value), rest);
        }
      }
    }
  }

  /**
   * Bytes are decoded if and only if they are fields, an embedded message is among them, and all embedded messages
   * are made of fields that fit. The result has the last type URL and the last payload of all of them.
   */
  lemma DecodedIff(b: Bytes)
    ensures FromNetworkBytes(b).Some?
       <==> && ReadFields(b).Some? && HasBatch(ReadFields(b).value) && AllOpen(ReadFields(b).value)
            && forall f :: f in Inner(ReadFields(b).value) ==> Fits(f)
    ensures FromNetworkBytes(b).Some? ==>
      && IsLast(Inner(ReadFields(b).value), 1, [], FromNetworkBytes(b).value.typeUrl)
      && IsLast(Inner(ReadFields(b).value), 2, [], FromNetworkBytes(b).value.value)
  {
    if ReadFields(b).Some? {
      var fields := ReadFields(b).value;
      BatchMeaning(None, fields);
      AnyMeaning(Batch([], []), Inner(fields));
    }
  }

  // ---------------------------------------------------------------------------------------------
  // What is rejected
  // ---------------------------------------------------------------------------------------------

  lemma SeenMembers(items: seq<Item>)
    ensures forall f :: f in AllSeen(items) <==> exists i :: i in items && Seen(i) == f
  {
    forall i | i in items ensures Seen(i) in AllSeen(items) {
      var k :| 0 <= k < |items| && items[k] == i;
      assert AllSeen(items)[k] == Seen(i);
    }
  }

  /** Well-formed fields without the one of a batch, none at all included, are an error. */
  lemma MissingBatch(items: seq<Item>)
    requires AllWritable(items) && forall f :: f in items ==> f.tag != 1
    ensures FromNetworkBytes(WriteItems(items)) == None
  {
    MessageIsRead(items);
    SeenMembers(items);
    DecodedIff(WriteItems(items));
  }

  lemma NothingIsNoBatch()
    ensures FromNetworkBytes([]) == None
  {
    MissingBatch([]);
  }

  /** A field 1 of another kind, among whatever other fields, is an error. */
  lemma WrongKind(items: seq<Item>, k: nat)
    requires AllWritable(items) && k < |items| && items[k].tag == 1 && !items[k].Text?
    ensures FromNetworkBytes(WriteItems(items)) == None
  {
    MessageIsRead(items);
    assert AllSeen(items)[k] == Seen(items[k]);
    assert Seen(items[k]) in AllSeen(items) && !Opens(Seen(items[k]));
    DecodedIff(WriteItems(items));
  }

  /** So is an embedded message that cannot be read. */
  lemma UnreadableInside(items: seq<Item>, k: nat)
    requires AllWritable(items) && k < |items| && items[k].tag == 1 && items[k].Text?
    requires ReadFields(items[k].bytes) == None
    ensures FromNetworkBytes(WriteItems(items)) == None
  {
    MessageIsRead(items);
    assert AllSeen(items)[k] == Seen(items[k]);
    assert Seen(items[k]) in AllSeen(items) && !Opens(Seen(items[k]));
    DecodedIff(WriteItems(items));
  }

  /** What cannot be read as a field cannot be read after other fields either. */
  lemma UnreadableEnd(items: seq<Item>, rest: Bytes)
    requires AllWritable(items) && rest != [] && ReadField(rest) == None
    ensures ReadFields(WriteItems(items) + rest) == None
    ensures FromNetworkBytes(WriteItems(items) + rest) == None
  {
    ItemsAreRead(items, rest);
    DecodedIff(WriteItems(items) + rest);
  }

  /** Tag zero, tags that do not fit, the wire type that ends a group, and those that do not exist, are not fields. */
  lemma BadKey(key: Bytes, rest: Bytes)
    requires IsVarint(key, 10)
    requires var n := Weighed(key, |key|); n < 8 || n / 8 >= TAG_LIMIT || n % 8 == 4 || n % 8 == 6 || n % 8 == 7
    ensures ReadField(key + rest) == None
  {
    VarintsAreRead(key, rest, 10);
  }

  /** A key whose bytes all announce another one is not complete. */
  lemma UnfinishedKey(b: Bytes)
    requires b != [] && forall i :: 0 <= i < |b| ==> b[i] >= 128
    ensures ReadField(b) == None && FromNetworkBytes(b) == None
  {
    Unfinished(b, 10);
    UnreadableEnd([], b);
    assert WriteItems([]) + b == b;
  }

  /** A length-delimited field cut short anywhere is not a field. */
  lemma CutField(tag: nat, payload: Bytes, k: nat)
    requires 0 < tag < 16 && |payload| < U64_LIMIT && 0 < k < |WriteField(tag, payload)|
    ensures ReadField(WriteField(tag, payload)[..k]) == None
  {
    var key, len := 8 * tag + LENGTH_DELIMITED, WriteVarint(|payload|);
    var whole := WriteField(tag, payload);
    var cut := whole[..k];
    var rest := cut[1..];
    assert whole[1..] == len + payload;
    assert rest == (len + payload)[..k - 1];
    assert cut[0] == key;
    assert ReadVarint(cut, 10) == Some((key, rest));
    CutPayload(payload, k - 1);
  }

  lemma CutPayload(payload: Bytes, k: nat)
    requires |payload| < U64_LIMIT && k < |WriteVarint(|payload|) + payload|
    ensures ReadPayload(LENGTH_DELIMITED, (WriteVarint(|payload|) + payload)[..k]) == None
  {
    TenBytesHoldU64();
    var len := WriteVarint(|payload|);
    WrittenVarint(|payload|, 10);
    if k < |len| {
      CutVarint(len, k, 10);
      assert (len + payload)[..k] == len[..k];
    } else {
      var some := payload[..k - |len|];
      assert (len + payload)[..k] == len + some;
      ReadWrittenVarint(|payload|, 10, some);
    }
  }

  /** Every proper prefix of an encoded batch is rejected. */
  lemma CutBatch(batch: Batch, k: nat)
    requires SizeBytes(batch) < U64_LIMIT && k < |ToNetworkBytes(batch)|
    ensures FromNetworkBytes(ToNetworkBytes(batch)[..k]) == None
  {
    EncodedSize(batch);
    if k == 0 {
      NothingIsNoBatch();
      assert ToNetworkBytes(batch)[..0] == [];
    } else {
      var cut := ToNetworkBytes(batch)[..k];
      CutField(1, WriteAny(batch), k);
      UnreadableEnd([], cut);
      assert WriteItems([]) + cut == cut;
    }
  }

  // ---------------------------------------------------------------------------------------------
  // Batches among other fields
  // ---------------------------------------------------------------------------------------------

  lemma FieldIsItem(tag: nat, payload: Bytes)
    requires 0 < tag < 16
    ensures WriteField(tag, payload) == WriteItem(Text(tag, payload))
  {
    var key := 8 * tag + LENGTH_DELIMITED;
    assert WriteVarint(key) == [key];
    Associates([key], WriteVarint(|payload|), payload);
  }

  /** The fields of a batch, those that are empty left out. */
  function Parts(batch: Batch): seq<Item> {
    (if batch.typeUrl == [] then [] else [Text(1, batch.typeUrl)])
    + (if batch.value == [] then [] else [Text(2, batch.value)])
  }

  lemma {:induction false} WriteInParts(a: seq<Item>, b: seq<Item>)
    ensures WriteItems(a + b) == WriteItems(a) + WriteItems(b)
  {
    if a == [] {
      assert a + b == b;
    } else {
      assert (a + b)[1..] == a[1..] + b;
      WriteInParts(a[1..], b);
      Associates(WriteItem(a[0]), WriteItems(a[1..]), WriteItems(b));
    }
  }

  lemma WriteOne(f: Item)
    ensures WriteItems([f]) == WriteItem(f)
  {
    assert [f][1..] == [];
  }

  lemma AnyIsParts(batch: Batch)
    ensures WriteAny(batch) == WriteItems(Parts(batch))
  {
    var url, value := Text(1, batch.typeUrl), Text(2, batch.value);
    FieldIsItem(1, batch.typeUrl);
    FieldIsItem(2, batch.value);
    WriteOne(url);
    WriteOne(value);
    WriteInParts(if batch.typeUrl == [] then [] else [url], if batch.value == [] then [] else [value]);
  }

  lemma {:induction false} InnerInParts(a: seq<Field>, b: seq<Field>)
    ensures Inner(a + b) == Inner(a) + Inner(b)
  {
    if a == [] {
      assert a + b == b;
    } else {
      assert (a + b)[1..] == a[1..] + b;
      InnerInParts(a[1..], b);
    }
  }

  lemma {:induction false} NothingInside(fields: seq<Field>)
    requires forall f :: f in fields ==> f.tag != 1
    ensures Inner(fields) == []
  {
    if fields != [] {
      NothingInside(fields[1..]);
    }
  }

  lemma SeenInParts(a: seq<Item>, b: seq<Item>)
    ensures AllSeen(a + b) == AllSeen(a) + AllSeen(b)
  {
  }

  /** A batch among fields that are not batches. */
  lemma Surrounded(before: seq<Item>, batch: Batch, after: seq<Item>)
    requires AllWritable(before) && AllWritable(after) && SizeBytes(batch) < U64_LIMIT
    requires forall f :: f in before || f in after ==> f.tag != 1
    ensures var b := WriteItems(before) + ToNetworkBytes(batch) + WriteItems(after);
      && ReadFields(b).Some? && Inner(ReadFields(b).value) == AllSeen(Parts(batch))
      && AllOpen(ReadFields(b).value) && HasBatch(ReadFields(b).value)
  {
    var middle := Text(1, WriteAny(batch));
    var items := before + [middle] + after;
    EncodedSize(batch);
    AnyIsParts(batch);
    FieldIsItem(1, WriteAny(batch));
    WriteOne(middle);
    WriteInParts(before, [middle]);
    WriteInParts(before + [middle], after);
    MessageIsRead(items);
    MessageIsRead(Parts(batch));
    SurroundedFields(before, middle, after);
  }

  lemma SurroundedFields(before: seq<Item>, middle: Item, after: seq<Item>)
    requires middle.Text? && middle.tag == 1 && ReadFields(middle.bytes).Some?
    requires forall f :: f in before || f in after ==> f.tag != 1
    ensures var fields := AllSeen(before + [middle] + after);
      AllOpen(fields) && HasBatch(fields) && Inner(fields) == ReadFields(middle.bytes).value
  {
    SeenMembers(before);
    SeenMembers(after);
    SeenInParts(before, [middle]);
    SeenInParts(before + [middle], after);
    InnerInParts(AllSeen(before) + AllSeen([middle]), AllSeen(after));
    InnerInParts(AllSeen(before), AllSeen([middle]));
    NothingInside(AllSeen(before));
    NothingInside(AllSeen(after));
    assert AllSeen([middle]) == [Seen(middle)];
    assert Seen(middle) in AllSeen([middle]);
  }

  lemma PartsSeen(batch: Batch)
    ensures AllSeen(Parts(batch))
         == (if batch.typeUrl == [] then [] else [Field(1, LENGTH_DELIMITED, batch.typeUrl)])
            + (if batch.value == [] then [] else [Field(2, LENGTH_DELIMITED, batch.value)])
  {
  }

  lemma PartsFit(batch: Batch)
    ensures (forall f :: f in AllSeen(Parts(batch)) ==> Fits(f)) <==> ValidUtf8(batch.typeUrl)
  {
    PartsSeen(batch);
    if batch.typeUrl == [] {
      assert ValidUtf8([]);
    } else {
      assert AllSeen(Parts(batch))[0] in AllSeen(Parts(batch));
    }
  }

  lemma PartsAreLast(batch: Batch, url: Bytes, value: Bytes)
    requires IsLast(AllSeen(Parts(batch)), 1, [], url) && IsLast(AllSeen(Parts(batch)), 2, [], value)
    ensures Batch(url, value) == batch
  {
    PartsSeen(batch);
    var seen := AllSeen(Parts(batch));
    assert batch.typeUrl != [] ==> seen[0] in seen;
    assert batch.value != [] ==> seen[|seen| - 1] in seen;
  }

  /** Unknown fields around a batch do not matter; a type URL that is not UTF-8 is rejected. */
  lemma UnknownFieldsAreSkipped(before: seq<Item>, batch: Batch, after: seq<Item>)
    requires AllWritable(before) && AllWritable(after) && SizeBytes(batch) < U64_LIMIT
    requires forall f :: f in before || f in after ==> f.tag != 1
    ensures FromNetworkBytes(WriteItems(before) + ToNetworkBytes(batch) + WriteItems(after))
         == if ValidUtf8(batch.typeUrl) then Some(batch) else None
  {
    var b := WriteItems(before) + ToNetworkBytes(batch) + WriteItems(after);
    Surrounded(before, batch, after);
    DecodedIff(b);
    PartsFit(batch);
    if FromNetworkBytes(b).Some? {
      var got := FromNetworkBytes(b).value;
      PartsAreLast(batch, got.typeUrl, got.value);
    }
  }
}
