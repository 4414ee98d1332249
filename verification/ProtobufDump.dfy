/**
 * The field-by-field dump of a serialized message, over the wire format of Protocol Buffers: base 128
 * varints and length-delimited records, as described in the Protocol Buffers Encoding guide.
 */
module ProtobufDump {
  import opened Common

  type byte = n: nat | n < 256

  const MAX_FIELDS: nat := 20

  // ---------------------------------------------------------------------------------------
  // Varints.

  datatype Decoded = Bad | Good(value: nat, rest: seq<byte>)

  /** The varint decoder at its `count`-th byte: at most ten bytes, and the tenth may only add one bit. */
  function DecodeVarint(buf: seq<byte>, count: nat): Decoded
    requires count <= 10
    decreases 10 - count
  {
    if count == 10 || buf == [] then Bad
    else if buf[0] < 128 then
      if count == 9 && buf[0] >= 2 then Bad else Good(buf[0], buf[1..])
    else
      match DecodeVarint(buf[1..], count + 1)
      case Bad => Bad
      case Good(v, rest) => Good(buf[0] - 128 + 128 * v, rest)
  }

  /** One more than the largest value that can still be decoded from the `count`-th byte on. */
  function Limit(count: nat): (limit: nat)
    requires count <= 10
    ensures limit >= 2
    decreases 10 - count
  {
    if count >= 9 then 2 else 128 * Limit(count + 1)
  }

  lemma LimitIs64Bits()
    ensures Limit(0) == U64_MAX + 1
  {
    assert Limit(7) == 128 * 128 * 2;
    assert Limit(5) == 128 * 128 * Limit(7);
    assert Limit(3) == 128 * 128 * Limit(5);
    assert Limit(1) == 128 * 128 * Limit(3);
  }

  lemma {:induction false} DecodedIsBounded(buf: seq<byte>, count: nat)
    requires count <= 10
    ensures var d := DecodeVarint(buf, count);
            d.Good? ==> d.value < Limit(count) && |d.rest| < |buf| && d.rest == buf[|buf| - |d.rest|..]
    decreases 10 - count
  {
    if count < 10 && buf != [] && buf[0] >= 128 {
      DecodedIsBounded(buf[1..], count + 1);
    } else if count < 9 {
      assert Limit(count) == 128 * Limit(count + 1);
    }
  }

  function EncodeVarint(v: nat): seq<byte> {
    if v < 128 then [v] else [128 + v % 128] + EncodeVarint(v / 128)
  }

  lemma DigitFits(v: nat, count: nat)
    requires count <= 9 && 128 <= v < Limit(count)
    ensures count <= 8 && v / 128 < Limit(count + 1) && v == 128 * (v / 128) + v % 128
  {
  }

  lemma DecodeCons(b: byte, rest: seq<byte>, count: nat, v: nat, tail: seq<byte>)
    requires count <= 8 && b >= 128 && DecodeVarint(rest, count + 1) == Good(v, tail)
    ensures DecodeVarint([b] + rest, count) == Good(b - 128 + 128 * v, tail)
  {
    assert ([b] + rest)[1..] == rest;
  }

  lemma DecodeLast(b: byte, tail: seq<byte>, count: nat)
    requires count <= 9 && b < 128 && (count == 9 ==> b < 2)
    ensures DecodeVarint([b] + tail, count) == Good(b, tail)
  {
    assert ([b] + tail)[1..] == tail;
  }

  lemma EncodedPrefix(v: nat, tail: seq<byte>)
    requires v >= 128
    ensures EncodeVarint(v) + tail == [128 + v % 128] + (EncodeVarint(v / 128) + tail)
  {
    Associate([128 + v % 128], EncodeVarint(v / 128), tail);
  }

  lemma Associate(a: seq<byte>, b: seq<byte>, c: seq<byte>)
    ensures a + b + c == a + (b + c)
  {
  }

  lemma DecodesMore(v: nat, count: nat, tail: seq<byte>, rest: seq<byte>)
    requires count <= 9 && 128 <= v < Limit(count)
    requires count <= 8 && DecodeVarint(rest, count + 1) == Good(v / 128, tail)
    ensures DecodeVarint([128 + v % 128] + rest, count) == Good(v, tail)
  {
    DigitFits(v, count);
    DecodeCons(128 + v % 128, rest, count, v / 128, tail);
  }

  lemma {:induction false} DecodesEncoded(v: nat, count: nat, tail: seq<byte>, buf: seq<byte>)
    requires count <= 9 && v < Limit(count) && buf == EncodeVarint(v) + tail
    ensures DecodeVarint(buf, count) == Good(v, tail)
    decreases v
  {
    if v < 128 {
      DecodeLast(v, tail, count);
    } else {
      var rest := EncodeVarint(v / 128) + tail;
      DigitFits(v, count);
      DecodesEncoded(v / 128, count + 1, tail, rest);
      DecodesMore(v, count, tail, rest);
      EncodedPrefix(v, tail);
    }
  }

  /** Decoding undoes encoding for every 64-bit value, whatever follows. */
  lemma VarintRoundTrip(v: u64, tail: seq<byte>)
    ensures DecodeVarint(EncodeVarint(v) + tail, 0) == Good(v, tail)
  {
    LimitIs64Bits();
    DecodesEncoded(v, 0, tail, EncodeVarint(v) + tail);
  }

  // ---------------------------------------------------------------------------------------
  // Fields.

  datatype Entry =
    | VarintEntry(field: nat, value: nat)
    | Text(field: nat, data: seq<byte>)
    | Binary(field: nat, length: nat)
    | KeyError(position: nat)
    | VarintError(field: nat)
    | LengthDecodeError(field: nat)
    | LengthError(field: nat)
    | InsufficientBytes(field: nat)
    | UnknownWireType(field: nat)

  predicate IsError(e: Entry) {
    !e.VarintEntry? && !e.Text? && !e.Binary?
  }

  datatype Key = BadKey | Key(field: nat, wire: nat, rest: seq<byte>)

  /** A key holds a field number of at least 1 and one of six wire types in 32 bits. */
  function DecodeKey(buf: seq<byte>): Key {
    match DecodeVarint(buf, 0)
    case Bad => BadKey
    case Good(key, rest) =>
      if key > 0xFFFF_FFFF || key % 8 > 5 || key / 8 < 1 then BadKey else Key(key / 8, key % 8, rest)
  }

  function DescribeData(field: nat, data: seq<byte>, isUtf8: seq<byte> -> bool): Entry {
    if isUtf8(data) then Text(field, data) else Binary(field, |data|)
  }

  /** The entry for the first field in `buf`, and what is left to read unless reading ends here. */
  function ReadField(buf: seq<byte>, position: nat, isUtf8: seq<byte> -> bool, usizeMax: nat): (Entry, Option<seq<byte>>) {
    match DecodeKey(buf)
    case BadKey => (KeyError(position), None)
    case Key(field, wire, rest) =>
      if wire == 0 then
        match DecodeVarint(rest, 0)
        case Bad => (VarintError(field), None)
        case Good(v, rest') => (VarintEntry(field, v), Some(rest'))
      else if wire == 2 then
        match DecodeVarint(rest, 0)
        case Bad => (LengthDecodeError(field), None)
        case Good(len, rest') =>
          if len > usizeMax then (LengthError(field), None)
          else if len > |rest'| then (InsufficientBytes(field), None)
          else (DescribeData(field, rest'[..len], isUtf8), Some(rest'[len..]))
      else (UnknownWireType(field), None)
  }

  lemma DecodedIsSuffix(buf: seq<byte>)
    ensures var d := DecodeVarint(buf, 0); d.Good? ==> |d.rest| < |buf| && d.value <= U64_MAX
    ensures var k := DecodeKey(buf); k.Key? ==> |k.rest| < |buf|
  {
    LimitIs64Bits();
    DecodedIsBounded(buf, 0);
  }

  /** A field that was read took at least one byte; reading ends exactly with an error. */
  lemma ReadFieldAdvances(buf: seq<byte>, position: nat, isUtf8: seq<byte> -> bool, usizeMax: nat)
    ensures var (e, rest) := ReadField(buf, position, isUtf8, usizeMax);
            (rest.None? <==> IsError(e)) && (rest.Some? ==> |rest.value| < |buf|)
  {
    DecodedIsSuffix(buf);
    if DecodeKey(buf).Key? {
      DecodedIsSuffix(DecodeKey(buf).rest);
    }
  }

  /** Reads one field at the front of a buffer; the number is the field's position for error reports. */
  type Reader = (seq<byte>, nat) -> (Entry, Option<seq<byte>>)

  function FieldReader(isUtf8: seq<byte> -> bool, usizeMax: nat): Reader {
    (buf: seq<byte>, position: nat) => ReadField(buf, position, isUtf8, usizeMax)
  }

  /** Every successful read shortens the buffer, and a read ends the dump exactly if it is an error. */
  ghost predicate Advances(read: Reader) {
    forall buf, position: nat ::
      var r := read(buf, position);
      (r.1.None? <==> IsError(r.0)) && (r.1.Some? ==> |r.1.value| < |buf|)
  }

  lemma FieldReaderAdvances(isUtf8: seq<byte> -> bool, usizeMax: nat)
    ensures Advances(FieldReader(isUtf8, usizeMax))
  {
    forall buf, position: nat
      ensures var r := FieldReader(isUtf8, usizeMax)(buf, position);
              (r.1.None? <==> IsError(r.0)) && (r.1.Some? ==> |r.1.value| < |buf|)
    {
      ReadFieldAdvances(buf, position, isUtf8, usizeMax);
    }
  }

  /** The dump of `buf` when `count` fields have been shown already. */
  ghost function Dump(read: Reader, buf: seq<byte>, count: nat): seq<Entry>
    requires Advances(read)
    decreases |buf|
  {
    if buf == [] || count >= MAX_FIELDS then []
    else
      var r := read(buf, count + 1);
      if r.1.None? then [r.0] else [r.0] + Dump(read, r.1.value, count + 1)
  }

  /** On arbitrary bytes: at most twenty entries, and an error can only be the last one. */
  lemma {:induction false} DumpIsBounded(read: Reader, buf: seq<byte>, count: nat)
    requires Advances(read) && count <= MAX_FIELDS
    ensures var es := Dump(read, buf, count);
            |es| + count <= 20 && forall i :: 0 <= i < |es| - 1 ==> !IsError(es[i])
    decreases |buf|
  {
    if buf != [] && count < MAX_FIELDS {
      var r := read(buf, count + 1);
      if r.1.Some? {
        DumpIsBounded(read, r.1.value, count + 1);
      }
    }
  }

  lemma DumpStep(read: Reader, buf: seq<byte>, count: nat, e: Entry, rest: Option<seq<byte>>)
    requires Advances(read) && buf != [] && count < MAX_FIELDS && read(buf, count + 1) == (e, rest)
    ensures Dump(read, buf, count) == if rest.None? then [e] else [e] + Dump(read, rest.value, count + 1)
    ensures rest.Some? ==> |rest.value| < |buf|
  {
  }

  /** One turn of the loop: what it appends and the buffer it leaves, if it goes on. */
  method ShowField(buf: seq<byte>, count: nat, isUtf8: seq<byte> -> bool, usizeMax: nat)
    returns (entry: Entry, rest: Option<seq<byte>>)
    ensures (entry, rest) == ReadField(buf, count + 1, isUtf8, usizeMax)
  {
    var key := DecodeKey(buf);
    if key.BadKey? {
      return KeyError(count + 1), None;
    }
    if key.wire == 0 {
      var value := DecodeVarint(key.rest, 0);
      if value.Bad? {
        return VarintError(key.field), None;
      }
      return VarintEntry(key.field, value.value), Some(value.rest);
    }
    if key.wire == 2 {
      var len := DecodeVarint(key.rest, 0);
      if len.Bad? {
        return LengthDecodeError(key.field), None;
      }
      if len.value > usizeMax {
        return LengthError(key.field), None;
      }
      if |len.rest| < len.value {
        return InsufficientBytes(key.field), None;
      }
      var data := len.rest[..len.value];
      return if isUtf8(data) then Text(key.field, data) else Binary(key.field, |data|), Some(len.rest[len.value..]);
    }
    return UnknownWireType(key.field), None;
  }

  /** The loop of `deserialize_protobuf`: it terminates on any bytes. */
  method DeserializeProtobuf(bytes: seq<byte>, isUtf8: seq<byte> -> bool, usizeMax: nat) returns (entries: seq<Entry>)
    ensures Advances(FieldReader(isUtf8, usizeMax)) && entries == Dump(FieldReader(isUtf8, usizeMax), bytes, 0)
    ensures |entries| <= 20 && forall i :: 0 <= i < |entries| - 1 ==> !IsError(entries[i])
  {
    FieldReaderAdvances(isUtf8, usizeMax);
    ghost var read := FieldReader(isUtf8, usizeMax);
    ghost var all := Dump(read, bytes, 0);
    DumpIsBounded(read, bytes, 0);
    entries := [];
    var buf, count := bytes, 0;
    while buf != [] && count < MAX_FIELDS
      invariant Remains(read, buf, count, entries, all)
      decreases |buf|
    {
      var entry, rest := ShowField(buf, count, isUtf8, usizeMax);
      ShowsOneMore(read, buf, count, entry, rest, entries, all);
      entries := entries + [entry];
      if rest.None? {
        return;
      }
      buf, count := rest.value, count + 1;
    }
  }

  /** What has been shown, followed by the dump of the rest, is the whole dump. */
  ghost predicate Remains(read: Reader, buf: seq<byte>, count: nat, entries: seq<Entry>, all: seq<Entry>)
    requires Advances(read)
  {
    entries + Dump(read, buf, count) == all
  }

  lemma ShowsOneMore(read: Reader, buf: seq<byte>, count: nat, e: Entry, rest: Option<seq<byte>>,
                     entries: seq<Entry>, all: seq<Entry>)
    requires Advances(read) && buf != [] && count < MAX_FIELDS && read(buf, count + 1) == (e, rest)
    requires Remains(read, buf, count, entries, all)
    ensures rest.None? ==> entries + [e] == all
    ensures rest.Some? ==> |rest.value| < |buf| && Remains(read, rest.value, count + 1, entries + [e], all)
  {
    DumpStep(read, buf, count, e, rest);
    if rest.Some? {
      Regroup(entries, e, Dump(read, rest.value, count + 1));
    }
  }

  lemma Regroup(a: seq<Entry>, e: Entry, b: seq<Entry>)
    ensures a + ([e] + b) == a + [e] + b
  {
  }

  // ---------------------------------------------------------------------------------------
  // The encoder's side.

  datatype Field = Varint(number: nat, value: nat) | Delimited(number: nat, data: seq<byte>)

  predicate Encodable(f: Field, usizeMax: nat) {
    && 1 <= f.number < 0x2000_0000
    && match f
       case Varint(_, v) => v <= U64_MAX
       case Delimited(_, data) => |data| <= usizeMax && |data| <= U64_MAX
  }

  function Encode(f: Field): seq<byte> {
    match f
    case Varint(n, v) => EncodeVarint(8 * n) + EncodeVarint(v)
    case Delimited(n, data) => EncodeVarint(8 * n + 2) + (EncodeVarint(|data|) + data)
  }

  function EncodeAll(fs: seq<Field>): seq<byte> {
    if fs == [] then [] else Encode(fs[0]) + EncodeAll(fs[1..])
  }

  function Shown(f: Field, isUtf8: seq<byte> -> bool): Entry {
    match f
    case Varint(n, v) => VarintEntry(n, v)
    case Delimited(n, data) => if isUtf8(data) then Text(n, data) else Binary(n, |data|)
  }

  lemma KeyRoundTrip(number: nat, wire: nat, tail: seq<byte>)
    requires 1 <= number < 0x2000_0000 && wire <= 5
    ensures DecodeKey(EncodeVarint(8 * number + wire) + tail) == Key(number, wire, tail)
  {
    VarintRoundTrip(8 * number + wire, tail);
    KeyParts(number, wire);
  }

  lemma KeyParts(number: nat, wire: nat)
    requires wire <= 5
    ensures (8 * number + wire) / 8 == number && (8 * number + wire) % 8 == wire
  {
  }

  lemma VarintFieldRoundTrip(n: nat, v: u64, tail: seq<byte>, position: nat, isUtf8: seq<byte> -> bool, usizeMax: nat)
    requires 1 <= n < 0x2000_0000
    ensures ReadField(EncodeVarint(8 * n) + (EncodeVarint(v) + tail), position, isUtf8, usizeMax) == (VarintEntry(n, v), Some(tail))
  {
    KeyRoundTrip(n, 0, EncodeVarint(v) + tail);
    VarintRoundTrip(v, tail);
  }

  lemma DelimitedFieldRoundTrip(n: nat, data: seq<byte>, tail: seq<byte>, position: nat, isUtf8: seq<byte> -> bool, usizeMax: nat)
    requires 1 <= n < 0x2000_0000 && |data| <= usizeMax && |data| <= U64_MAX
    ensures ReadField(EncodeVarint(8 * n + 2) + (EncodeVarint(|data|) + (data + tail)), position, isUtf8, usizeMax) ==
            (DescribeData(n, data, isUtf8), Some(tail))
  {
    KeyRoundTrip(n, 2, EncodeVarint(|data|) + (data + tail));
    VarintRoundTrip(|data|, data + tail);
    assert (data + tail)[..|data|] == data && (data + tail)[|data|..] == tail;
  }

  /** Reading an encoded field reports it and leaves what follows. */
  lemma FieldRoundTrip(f: Field, tail: seq<byte>, position: nat, isUtf8: seq<byte> -> bool, usizeMax: nat)
    requires Encodable(f, usizeMax)
    ensures ReadField(Encode(f) + tail, position, isUtf8, usizeMax) == (Shown(f, isUtf8), Some(tail))
  {
    match f
    case Varint(n, v) =>
      assert Encode(f) + tail == EncodeVarint(8 * n) + (EncodeVarint(v) + tail);
      VarintFieldRoundTrip(n, v, tail, position, isUtf8, usizeMax);
    case Delimited(n, data) =>
      assert Encode(f) + tail == EncodeVarint(8 * n + 2) + (EncodeVarint(|data|) + (data + tail));
      DelimitedFieldRoundTrip(n, data, tail, position, isUtf8, usizeMax);
  }

  /**
   * A buffer that the reader takes apart step by step: `left(k)` is what is left after k reads and
   * `entry(k)` what the next read finds.
   */
  ghost predicate ReadsAlong(read: Reader, left: nat -> seq<byte>, entry: nat -> Entry, n: nat) {
    && left(n) == []
    && forall k: nat, position: nat :: k < n ==>
         left(k) != [] && read(left(k), position) == (entry(k), Some(left(k + 1)))
  }

  /** What the next reads find, as far as there is room. */
  ghost predicate Shows(es: seq<Entry>, entry: nat -> Entry, i: nat, n: nat, room: nat)
    requires i <= n
  {
    |es| == (if n - i <= room then n - i else room) && forall k: nat :: k < |es| ==> es[k] == entry(i + k)
  }

  lemma ShowsCons(es: seq<Entry>, entry: nat -> Entry, i: nat, n: nat, room: nat)
    requires i < n && room > 0 && Shows(es, entry, i + 1, n, room - 1)
    ensures Shows([entry(i)] + es, entry, i, n, room)
  {
    forall k: nat | k < |es| + 1
      ensures ([entry(i)] + es)[k] == entry(i + k)
    {
      if k > 0 {
        assert es[k - 1] == entry(i + 1 + (k - 1));
      }
    }
  }

  /** Its dump lists what the reads find, as far as there is room. */
  lemma {:induction false} DumpAlong(read: Reader, left: nat -> seq<byte>, entry: nat -> Entry, n: nat, i: nat, count: nat)
    requires Advances(read) && ReadsAlong(read, left, entry, n) && i <= n && count <= MAX_FIELDS
    ensures Shows(Dump(read, left(i), count), entry, i, n, MAX_FIELDS - count)
    decreases n - i
  {
    if i < n && count < MAX_FIELDS {
      DumpAlong(read, left, entry, n, i + 1, count + 1);
      assert read(left(i), count + 1) == (entry(i), Some(left(i + 1)));
      DumpStep(read, left(i), count, entry(i), Some(left(i + 1)));
      ShowsCons(Dump(read, left(i + 1), count + 1), entry, i, n, MAX_FIELDS - count);
    }
  }

  function Left(fs: seq<Field>): nat -> seq<byte> {
    (i: nat) => if i <= |fs| then EncodeAll(fs[i..]) else []
  }

  function Found(fs: seq<Field>, isUtf8: seq<byte> -> bool): nat -> Entry {
    (i: nat) => if i < |fs| then Shown(fs[i], isUtf8) else KeyError(i)
  }

  lemma EncodedReadsAlong(fs: seq<Field>, isUtf8: seq<byte> -> bool, usizeMax: nat)
    requires forall f <- fs :: Encodable(f, usizeMax)
    ensures ReadsAlong(FieldReader(isUtf8, usizeMax), Left(fs), Found(fs, isUtf8), |fs|)
  {
    forall i: nat, position: nat | i < |fs|
      ensures Left(fs)(i) != []
      ensures FieldReader(isUtf8, usizeMax)(Left(fs)(i), position) == (Shown(fs[i], isUtf8), Some(Left(fs)(i + 1)))
    {
      var tail := EncodeAll(fs[i + 1..]);
      assert fs[i..][1..] == fs[i + 1..];
      assert Left(fs)(i) == Encode(fs[i]) + tail;
      FieldRoundTrip(fs[i], tail, position, isUtf8, usizeMax);
      EncodeIsNotEmpty(fs[i]);
    }
  }

  lemma EncodeIsNotEmpty(f: Field)
    ensures Encode(f) != []
  {
  }

  /** Dumping an encoded message shows its fields in order, up to the first twenty. */
  lemma DumpShowsFields(fs: seq<Field>, isUtf8: seq<byte> -> bool, usizeMax: nat)
    requires forall f <- fs :: Encodable(f, usizeMax)
    ensures Advances(FieldReader(isUtf8, usizeMax))
    ensures var es := Dump(FieldReader(isUtf8, usizeMax), EncodeAll(fs), 0);
            && |es| == (if |fs| <= 20 then |fs| else 20)
            && forall k: nat :: k < |es| ==> es[k] == Shown(fs[k], isUtf8)
  {
    FieldReaderAdvances(isUtf8, usizeMax);
    EncodedReadsAlong(fs, isUtf8, usizeMax);
    DumpAlong(FieldReader(isUtf8, usizeMax), Left(fs), Found(fs, isUtf8), |fs|, 0, 0);
    assert fs[0..] == fs && Left(fs)(0) == EncodeAll(fs);
    assert forall k: nat :: k < |fs| ==> Found(fs, isUtf8)(0 + k) == Shown(fs[k], isUtf8);
  }

  // ---------------------------------------------------------------------------------------
  // Malformed messages.

  /** Which encoded keys are accepted: 32 bits, a field number of at least 1, one of the six wire types. */
  lemma KeyIsExact(key: u64, tail: seq<byte>)
    ensures DecodeKey(EncodeVarint(key) + tail) ==
            if 8 <= key < 0x1_0000_0000 && key % 8 < 6 then Key(key / 8, key % 8, tail) else BadKey
  {
    VarintRoundTrip(key, tail);
  }

  /** The entry and the end of the dump for each way a field can be malformed. */
  lemma MalformedField(n: nat, wire: nat, rest: seq<byte>, position: nat, isUtf8: seq<byte> -> bool, usizeMax: nat)
    requires 1 <= n < 0x2000_0000 && wire <= 5
    ensures var r := ReadField(EncodeVarint(8 * n + wire) + rest, position, isUtf8, usizeMax);
            match DecodeVarint(rest, 0)
            case Bad =>
              r == (if wire == 0 then VarintError(n) else if wire == 2 then LengthDecodeError(n) else UnknownWireType(n), None)
            case Good(v, rest') =>
              && (wire != 0 && wire != 2 ==> r == (UnknownWireType(n), None))
              && (wire == 2 && v > usizeMax ==> r == (LengthError(n), None))
              && (wire == 2 && |rest'| < v <= usizeMax ==> r == (InsufficientBytes(n), None))
  {
    KeyRoundTrip(n, wire, rest);
  }

  /** Like `ReadsAlong`, but the last read ends the dump with an error. */
  ghost predicate FailsAlong(read: Reader, left: nat -> seq<byte>, entry: nat -> Entry, n: nat, last: nat, e: Entry) {
    && left(n) != [] && read(left(n), last) == (e, None)
    && forall k: nat, position: nat :: k < n ==>
         left(k) != [] && read(left(k), position) == (entry(k), Some(left(k + 1)))
  }

  /** The entries of the remaining reads, then the error. */
  ghost predicate ShowsThen(es: seq<Entry>, entry: nat -> Entry, i: nat, n: nat, e: Entry)
    requires i <= n
  {
    |es| == n - i + 1 && es[n - i] == e && forall k: nat :: k < n - i ==> es[k] == entry(i + k)
  }

  lemma ShowsThenCons(es: seq<Entry>, entry: nat -> Entry, i: nat, n: nat, e: Entry)
    requires i < n && ShowsThen(es, entry, i + 1, n, e)
    ensures ShowsThen([entry(i)] + es, entry, i, n, e)
  {
    forall k: nat | k < n - i
      ensures ([entry(i)] + es)[k] == entry(i + k)
    {
      if k > 0 {
        assert es[k - 1] == entry(i + 1 + (k - 1));
      }
    }
  }

  lemma {:induction false} DumpFailsAlong(read: Reader, left: nat -> seq<byte>, entry: nat -> Entry, n: nat, i: nat, count: nat, e: Entry)
    requires Advances(read) && i <= n && count + (n - i) < MAX_FIELDS && FailsAlong(read, left, entry, n, count + (n - i) + 1, e)
    ensures ShowsThen(Dump(read, left(i), count), entry, i, n, e)
    decreases n - i
  {
    if i == n {
      DumpStep(read, left(i), count, e, None);
    } else {
      DumpFailsAlong(read, left, entry, n, i + 1, count + 1, e);
      assert read(left(i), count + 1) == (entry(i), Some(left(i + 1)));
      DumpStep(read, left(i), count, entry(i), Some(left(i + 1)));
      ShowsThenCons(Dump(read, left(i + 1), count + 1), entry, i, n, e);
    }
  }

  function LeftBefore(fs: seq<Field>, bad: seq<byte>): nat -> seq<byte> {
    (i: nat) => if i <= |fs| then EncodeAll(fs[i..]) + bad else []
  }

  lemma ReadsOneField(fs: seq<Field>, bad: seq<byte>, i: nat, position: nat, isUtf8: seq<byte> -> bool, usizeMax: nat)
    requires i < |fs| && Encodable(fs[i], usizeMax)
    ensures LeftBefore(fs, bad)(i) != []
    ensures ReadField(LeftBefore(fs, bad)(i), position, isUtf8, usizeMax) == (Shown(fs[i], isUtf8), Some(LeftBefore(fs, bad)(i + 1)))
  {
    var tail := EncodeAll(fs[i + 1..]) + bad;
    assert fs[i..][1..] == fs[i + 1..];
    Associate(Encode(fs[i]), EncodeAll(fs[i + 1..]), bad);
    FieldRoundTrip(fs[i], tail, position, isUtf8, usizeMax);
    EncodeIsNotEmpty(fs[i]);
  }

  lemma EncodedFailsAlong(fs: seq<Field>, bad: seq<byte>, isUtf8: seq<byte> -> bool, usizeMax: nat)
    requires (forall f <- fs :: Encodable(f, usizeMax)) && bad != [] && DecodeKey(bad).BadKey?
    ensures FailsAlong(FieldReader(isUtf8, usizeMax), LeftBefore(fs, bad), Found(fs, isUtf8), |fs|, |fs| + 1, KeyError(|fs| + 1))
  {
    forall k: nat, position: nat | k < |fs|
      ensures LeftBefore(fs, bad)(k) != []
      ensures FieldReader(isUtf8, usizeMax)(LeftBefore(fs, bad)(k), position) ==
              (Found(fs, isUtf8)(k), Some(LeftBefore(fs, bad)(k + 1)))
    {
      ReadsOneField(fs, bad, k, position, isUtf8, usizeMax);
    }
    assert fs[|fs|..] == [] && [] + bad == bad;
  }

  /**
   * Fewer than twenty encoded fields followed by bytes that are no key: the fields are shown, then an error
   * that names its position.
   */
  lemma DumpEndsAtBadKey(fs: seq<Field>, bad: seq<byte>, isUtf8: seq<byte> -> bool, usizeMax: nat)
    requires (forall f <- fs :: Encodable(f, usizeMax)) && |fs| < 20 && bad != [] && DecodeKey(bad).BadKey?
    ensures Advances(FieldReader(isUtf8, usizeMax))
    ensures var es := Dump(FieldReader(isUtf8, usizeMax), EncodeAll(fs) + bad, 0);
            && |es| == |fs| + 1 && es[|fs|] == KeyError(|fs| + 1)
            && forall k: nat :: k < |fs| ==> es[k] == Shown(fs[k], isUtf8)
  {
    FieldReaderAdvances(isUtf8, usizeMax);
    EncodedFailsAlong(fs, bad, isUtf8, usizeMax);
    DumpFailsAlong(FieldReader(isUtf8, usizeMax), LeftBefore(fs, bad), Found(fs, isUtf8), |fs|, 0, 0, KeyError(|fs| + 1));
    assert fs[0..] == fs && LeftBefore(fs, bad)(0) == EncodeAll(fs) + bad;
    assert forall k: nat :: k < |fs| ==> Found(fs, isUtf8)(0 + k) == Shown(fs[k], isUtf8);
  }
}
