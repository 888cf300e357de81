/** The generated Protocol Buffers codec of `Order`: a writer that fills a buffer from its end, a size, and a parser
    that merges into a message.

    The wire format is that of the Protocol Buffers Encoding specification, sections "Base 128 Varints" and
    "Message Structure".
 */
module OrderCodec {
  import opened Arithmetic
  import opened Words

  const TWO32: nat := 0x1_0000_0000
  const TWO63: nat := 0x8000_0000_0000_0000
  const TWO64: nat := 0x1_0000_0000_0000_0000

  const VARINT: nat := 0
  const LEN: nat := 2

  /** The fields of a message; an empty and a nil byte string are one value. */
  datatype Order = Order(
    uid: U64, nonce: U64, price: U64, amount: U64, linkedOrderId: U64,
    signature: seq<Byte>, userOrderId: seq<Byte>, symbol: seq<Byte>,
    opCode: U32, flags: U32, ordersFlag: U32)

  const FRESH: Order := Order(0, 0, 0, 0, 0, [], [], [], 0, 0, 0)

  // ---------------------------------------------------------------- what is written

  /** A base-128 varint: seven bits a byte, least significant first, with a continuation bit. */
  function Varint(v: nat): (bs: seq<Byte>)
    ensures |bs| >= 1
  {
    if v < 128 then [v] else [128 + v % 128] + Varint(v / 128)
  }

  /** A field number whose tag takes one byte. */
  type FieldNumber = x: int | 1 <= x <= 15 witness 1

  datatype Field = VarF(num: FieldNumber, v: U64) | BytesF(num: FieldNumber, b: seq<Byte>)

  /** A tag and its value; a zero or empty field is not written. */
  function EncodeField(f: Field): seq<Byte> {
    match f
    case VarF(num, v) => if v == 0 then [] else [8 * num + VARINT] + Varint(v)
    case BytesF(num, b) => if b == [] then [] else [8 * num + LEN] + Varint(|b|) + b
  }

  function Fields(o: Order): seq<Field> {
    [VarF(1, o.uid), VarF(2, o.nonce), VarF(3, o.price), VarF(4, o.amount), VarF(5, o.linkedOrderId),
     BytesF(6, o.signature), BytesF(7, o.userOrderId), BytesF(8, o.symbol),
     VarF(9, o.opCode), VarF(10, o.flags), VarF(11, o.ordersFlag)]
  }

  function EncodeFields(fs: seq<Field>): seq<Byte> {
    if fs == [] then [] else EncodeField(fs[0]) + EncodeFields(fs[1..])
  }

  function Encode(o: Order): seq<Byte> {
    EncodeFields(Fields(o))
  }

  /** The fields of a message follow each other. */
  lemma {:induction false} EncodeFrom(fs: seq<Field>, k: nat)
    requires k < |fs|
    ensures EncodeFields(fs[k..]) == EncodeField(fs[k]) + EncodeFields(fs[k + 1..])
    ensures |EncodeFields(fs[k..])| <= |EncodeFields(fs)|
  {
    assert fs[k..][1..] == fs[k + 1..];
    if k > 0 {
      EncodeFrom(fs, k - 1);
    } else {
      assert fs[0..] == fs;
    }
  }

  // ---------------------------------------------------------------- what is read

  datatype Error = IntOverflow | UnexpectedEOF | InvalidLength | EndGroup | IllegalTag | WrongWireType | UnknownField
  datatype Read = Got(value: U64, next: nat) | Bad(error: Error)
  datatype Parsed = Next(o: Order, at: nat) | Failed(error: Error)
  datatype Result = Ok(o: Order) | Err(error: Error)

  /** One of the parser's varint loops, from a shift on.  The seven-bit groups do not overlap, so `|=` adds; what a
      64-bit shift pushes out is lost. */
  function ReadFrom(data: seq<Byte>, i: nat, shift: nat, acc: nat): (r: Read)
    ensures r.Got? ==> i < r.next <= |data|
    decreases if i < |data| then |data| - i else 0
  {
    if shift >= 64 then Bad(IntOverflow)
    else if i >= |data| then Bad(UnexpectedEOF)
    else
      var acc' := (acc + data[i] % 128 * Pow2(shift)) % TWO64;
      if data[i] < 128 then Got(acc', i + 1) else ReadFrom(data, i + 1, shift + 7, acc')
  }

  function ReadVarint(data: seq<Byte>, i: nat): (r: Read)
    ensures r.Got? ==> i < r.next <= |data|
  {
    ReadFrom(data, i, 0, 0)
  }

  /** `int32(x)` for a 64-bit x. */
  function ToInt32(x: nat): (y: int)
    ensures -0x8000_0000 <= y < 0x8000_0000 && (x - y) % 0x1_0000_0000 == 0
  {
    if x % TWO32 < TWO32 / 2 then x % TWO32 else x % TWO32 - TWO32
  }

  /** The byte string of a length-delimited field: where it starts and ends, or why it cannot be there.  Lengths and
      sums of 2^63 and more are negative 64-bit integers. */
  function ReadLength(data: seq<Byte>, i: nat): (r: Read)
    ensures r.Got? ==> i < r.value <= r.next <= |data|
  {
    match ReadVarint(data, i)
    case Bad(e) => Bad(e)
    case Got(len, at) =>
      if len >= TWO63 || at + len >= TWO63 then Bad(InvalidLength)
      else if at + len > |data| then Bad(UnexpectedEOF)
      else Got(at, at + len)
  }

  /** A case of the parser's switch. */
  function ParseValue(data: seq<Byte>, at: nat, fieldNum: int, wireType: nat, o: Order): (r: Parsed)
    requires fieldNum > 0
    ensures r.Next? ==> at < r.at <= |data|
  {
    if 6 <= fieldNum <= 8 then
      if wireType != LEN then Failed(WrongWireType)
      else match ReadLength(data, at) {
        case Bad(e) => Failed(e)
        case Got(start, end) => Next(SetField(o, BytesF(fieldNum, data[start..end])), end)
      }
    else if fieldNum <= 11 then
      if wireType != VARINT then Failed(WrongWireType)
      else match ReadVarint(data, at) {
        case Bad(e) => Failed(e)
        case Got(v, next) => Next(SetField(o, VarF(fieldNum, v)), next)
      }
    else Failed(UnknownField)
  }

  /** One round of the parser's loop. */
  function ParseField(data: seq<Byte>, i: nat, o: Order): (r: Parsed)
    ensures r.Next? ==> i < r.at <= |data|
  {
    match ReadVarint(data, i)
    case Bad(e) => Failed(e)
    case Got(wire, at) =>
      var fieldNum, wireType := ToInt32(wire / 8), wire % 8;
      if wireType == 4 then Failed(EndGroup)
      else if fieldNum <= 0 then Failed(IllegalTag)
      else ParseValue(data, at, fieldNum, wireType, o)
  }

  /** The assignment to a field; the last three keep 32 bits. */
  function SetField(o: Order, f: Field): Order {
    match f
    case VarF(num, v) =>
      if num == 1 then o.(uid := v)
      else if num == 2 then o.(nonce := v)
      else if num == 3 then o.(price := v)
      else if num == 4 then o.(amount := v)
      else if num == 5 then o.(linkedOrderId := v)
      else if num == 9 then o.(opCode := v % TWO32)
      else if num == 10 then o.(flags := v % TWO32)
      else if num == 11 then o.(ordersFlag := v % TWO32)
      else o
    case BytesF(num, b) =>
      if num == 6 then o.(signature := b)
      else if num == 7 then o.(userOrderId := b)
      else if num == 8 then o.(symbol := b)
      else o
  }

  /** The whole parse from a position, merging into o. */
  function Unmarshal(data: seq<Byte>, i: nat, o: Order): Result
    decreases if i < |data| then |data| - i else 0
  {
    if i >= |data| then Ok(o) else
      match ParseField(data, i, o)
      case Failed(e) => Err(e)
      case Next(o', at) => Unmarshal(data, at, o')
  }

  // ---------------------------------------------------------------- reading back what was written

  lemma {:induction false} VarintReads(data: seq<Byte>, i: nat, shift: nat, acc: nat, v: nat)
    requires i + |Varint(v)| <= |data| && data[i..i + |Varint(v)|] == Varint(v)
    requires shift < 64 && acc + v * Pow2(shift) < TWO64
    ensures ReadFrom(data, i, shift, acc) == Got(acc + v * Pow2(shift), i + |Varint(v)|)
    decreases v
  {
    hide Pow2, ReadFrom;
    var w := Varint(v);
    assert data[i] == data[i..i + |w|][0] == w[0];
    ReadStep(data, i, shift, acc, v % 128);
    if v >= 128 {
      var rest := Varint(v / 128);
      assert data[i + 1..i + 1 + |rest|] == data[i..i + |w|][1..] == w[1..] == rest;
      ShiftGroup(v, shift);
      ShiftFits(v, shift);
      VarintReads(data, i + 1, shift + 7, acc + v % 128 * Pow2(shift), v / 128);
    } else {
      assert v % 128 == v;
    }
  }

  lemma ReadStep(data: seq<Byte>, i: nat, shift: nat, acc: nat, group: nat)
    requires i < |data| && shift < 64 && group == data[i] % 128
    ensures acc + group * Pow2(shift) < TWO64 ==>
      ReadFrom(data, i, shift, acc) ==
      if data[i] < 128 then Got(acc + group * Pow2(shift), i + 1)
      else ReadFrom(data, i + 1, shift + 7, acc + group * Pow2(shift))
  {
    hide Pow2;
  }

  /** Seven bits at a time. */
  lemma ShiftGroup(v: nat, shift: nat)
    ensures v * Pow2(shift) == v % 128 * Pow2(shift) + v / 128 * Pow2(shift + 7)
  {
    Pow2Add(shift, 7);
    Pow2Values();
    Distribute(v / 128, v % 128, Pow2(shift));
  }

  lemma ShiftFits(v: nat, shift: nat)
    requires v >= 128 && v * Pow2(shift) < TWO64
    ensures shift + 7 < 64
  {
    if shift + 7 >= 64 {
      Pow2Add(shift, 7);
      Pow2Values();
      Pow2Monotone(64, shift + 7);
      MulMonotone(128, v, Pow2(shift));
    }
  }

  /** The varint at a position is read back, whatever surrounds it. */
  lemma VarintRoundTrip(data: seq<Byte>, i: nat, v: U64)
    requires i + |Varint(v)| <= |data| && data[i..i + |Varint(v)|] == Varint(v)
    ensures ReadVarint(data, i) == Got(v, i + |Varint(v)|)
  {
    VarintReads(data, i, 0, 0, v);
  }

  /** A field with the wire type that its number has in the message. */
  predicate Known(f: Field) {
    if 6 <= f.num <= 8 then f.BytesF? else 1 <= f.num <= 11 && f.VarF?
  }

  predicate Written(f: Field) {
    match f
    case VarF(_, v) => v != 0
    case BytesF(_, b) => b != []
  }

  lemma SliceSplit(data: seq<Byte>, i: nat, a: seq<Byte>, b: seq<Byte>)
    requires i + |a + b| <= |data| && data[i..i + |a + b|] == a + b
    ensures data[i..i + |a|] == a && data[i + |a|..i + |a| + |b|] == b
  {
    assert data[i..i + |a|] == data[i..i + |a + b|][..|a|];
    assert data[i + |a|..i + |a| + |b|] == data[i..i + |a + b|][|a|..];
  }

  lemma TagParses(data: seq<Byte>, i: nat, tag: Byte)
    requires i < |data| && data[i] == tag < 128
    ensures ReadVarint(data, i) == Got(tag, i + 1)
  {
    assert data[i..i + 1] == [tag] == Varint(tag);
    VarintRoundTrip(data, i, tag);
  }

  lemma NumberParses(data: seq<Byte>, i: nat, o: Order, num: FieldNumber, v: U64)
    requires Known(VarF(num, v)) && v != 0 && |data| < TWO63
    requires i + 1 + |Varint(v)| <= |data| && data[i..i + 1 + |Varint(v)|] == [8 * num + VARINT] + Varint(v)
    ensures ParseField(data, i, o) == Next(SetField(o, VarF(num, v)), i + 1 + |Varint(v)|)
  {
    hide ReadVarint, SetField, Varint;
    SliceSplit(data, i, [8 * num + VARINT], Varint(v));
    assert data[i] == data[i..i + 1][0];
    TagParses(data, i, 8 * num + VARINT);
    VarintRoundTrip(data, i + 1, v);
  }

  lemma BytesParse(data: seq<Byte>, i: nat, o: Order, num: FieldNumber, b: seq<Byte>)
    requires Known(BytesF(num, b)) && b != [] && |data| < TWO63
    requires var w := [8 * num + LEN] + (Varint(|b|) + b); i + |w| <= |data| && data[i..i + |w|] == w
    ensures ParseField(data, i, o) == Next(SetField(o, BytesF(num, b)), i + 1 + |Varint(|b|)| + |b|)
  {
    hide ReadVarint, SetField, Varint;
    var n := Varint(|b|);
    SliceSplit(data, i, [8 * num + LEN], n + b);
    SliceSplit(data, i + 1, n, b);
    assert data[i] == data[i..i + 1][0];
    TagParses(data, i, 8 * num + LEN);
    VarintRoundTrip(data, i + 1, |b|);
  }

  /** What a written field does to the message under construction. */
  lemma FieldParses(data: seq<Byte>, i: nat, o: Order, f: Field)
    requires Known(f) && Written(f) && |data| < TWO63
    requires i + |EncodeField(f)| <= |data| && data[i..i + |EncodeField(f)|] == EncodeField(f)
    ensures ParseField(data, i, o) == Next(SetField(o, f), i + |EncodeField(f)|)
  {
    hide ParseField, SetField, Varint;
    match f
    case VarF(num, v) => NumberParses(data, i, o, num, v);
    case BytesF(num, b) =>
      assert EncodeField(f) == [8 * num + LEN] + (Varint(|b|) + b);
      BytesParse(data, i, o, num, b);
  }

  function Apply(o: Order, f: Field): Order {
    if Written(f) then SetField(o, f) else o
  }

  /** Applying the written fields of a list in order: the last one wins. */
  function SetFields(o: Order, fs: seq<Field>): Order
    decreases |fs|
  {
    if fs == [] then o else SetFields(Apply(o, fs[0]), fs[1..])
  }

  /** An encoded list of fields, in any order and with repetitions, is consumed in full, and sets just its fields. */
  lemma {:induction false} FieldsParse(data: seq<Byte>, i: nat, o: Order, fs: seq<Field>)
    requires |data| < TWO63 && forall k :: 0 <= k < |fs| ==> Known(fs[k])
    requires i + |EncodeFields(fs)| <= |data| && data[i..i + |EncodeFields(fs)|] == EncodeFields(fs)
    ensures Unmarshal(data, i, o) == Unmarshal(data, i + |EncodeFields(fs)|, SetFields(o, fs))
    decreases |fs|
  {
    hide Known, Written, EncodeField, ParseField, SetField;
    if fs != [] {
      var f, w, rest := fs[0], EncodeField(fs[0]), EncodeFields(fs[1..]);
      SliceSplit(data, i, w, rest);
      if Written(f) {
        OneField(data, i, o, f);
        FieldsParse(data, i + |w|, SetField(o, f), fs[1..]);
      } else {
        UnwrittenIsEmpty(f);
        FieldsParse(data, i, o, fs[1..]);
      }
    }
  }

  lemma UnwrittenIsEmpty(f: Field)
    ensures EncodeField(f) == [] <==> !Written(f)
  {
  }

  lemma OneField(data: seq<Byte>, i: nat, o: Order, f: Field)
    requires Known(f) && Written(f) && |data| < TWO63
    requires i + |EncodeField(f)| <= |data| && data[i..i + |EncodeField(f)|] == EncodeField(f)
    ensures Unmarshal(data, i, o) == Unmarshal(data, i + |EncodeField(f)|, SetField(o, f))
  {
    FieldParses(data, i, o, f);
    hide ParseField, SetField;
    assert |EncodeField(f)| > 0;
  }

  // ---------------------------------------------------------------- messages

  function OrNumber(m: U64, o: U64): U64 {
    if m != 0 then m else o
  }

  function OrBytes(m: seq<Byte>, o: seq<Byte>): seq<Byte> {
    if m != [] then m else o
  }

  /** o overridden by every field that m has. */
  function Merge(o: Order, m: Order): Order {
    Order(OrNumber(m.uid, o.uid), OrNumber(m.nonce, o.nonce), OrNumber(m.price, o.price), OrNumber(m.amount, o.amount),
          OrNumber(m.linkedOrderId, o.linkedOrderId), OrBytes(m.signature, o.signature),
          OrBytes(m.userOrderId, o.userOrderId), OrBytes(m.symbol, o.symbol),
          if m.opCode != 0 then m.opCode else o.opCode, if m.flags != 0 then m.flags else o.flags,
          if m.ordersFlag != 0 then m.ordersFlag else o.ordersFlag)
  }

  lemma ApplyNext(o: Order, fs: seq<Field>, k: nat) returns (o': Order)
    requires k < |fs|
    ensures o' == Apply(o, fs[k])
    ensures SetFields(o, fs[k..]) == SetFields(o', fs[k + 1..])
  {
    o' := Apply(o, fs[k]);
    assert fs[k..][1..] == fs[k + 1..];
  }

  lemma NumbersMerge(o: Order, m: Order) returns (o5: Order)
    ensures o5 == o.(uid := OrNumber(m.uid, o.uid), nonce := OrNumber(m.nonce, o.nonce),
      price := OrNumber(m.price, o.price),
                     amount := OrNumber(m.amount, o.amount), linkedOrderId :=
                       OrNumber(m.linkedOrderId, o.linkedOrderId))
    ensures SetFields(o, Fields(m)) == SetFields(o5, Fields(m)[5..])
  {
    hide SetFields;
    var fs := Fields(m);
    assert fs[0..] == fs;
    var o1 := ApplyNext(o, fs, 0);
    var o2 := ApplyNext(o1, fs, 1);
    var o3 := ApplyNext(o2, fs, 2);
    var o4 := ApplyNext(o3, fs, 3);
    o5 := ApplyNext(o4, fs, 4);
  }

  lemma StringsMerge(o: Order, m: Order) returns (o8: Order)
    ensures o8 == o.(signature := OrBytes(m.signature, o.signature),
                     userOrderId := OrBytes(m.userOrderId, o.userOrderId), symbol := OrBytes(m.symbol, o.symbol))
    ensures SetFields(o, Fields(m)[5..]) == SetFields(o8, Fields(m)[8..])
  {
    hide SetFields;
    var fs := Fields(m);
    var o6 := ApplyNext(o, fs, 5);
    var o7 := ApplyNext(o6, fs, 6);
    o8 := ApplyNext(o7, fs, 7);
  }

  lemma FlagsMerge(o: Order, m: Order) returns (o11: Order)
    ensures o11 == o.(opCode := if m.opCode != 0 then m.opCode else o.opCode,
                      flags := if m.flags != 0 then m.flags else o.flags,
                      ordersFlag := if m.ordersFlag != 0 then m.ordersFlag else o.ordersFlag)
    ensures SetFields(o, Fields(m)[8..]) == o11
  {
    hide SetFields;
    var fs := Fields(m);
    var o9 := ApplyNext(o, fs, 8);
    var o10 := ApplyNext(o9, fs, 9);
    o11 := ApplyNext(o10, fs, 10);
    SetNone(o11, fs[11..]);
  }

  lemma SetFieldsMerges(o: Order, m: Order)
    ensures SetFields(o, Fields(m)) == Merge(o, m)
  {
    hide SetFields, Fields;
    var o5 := NumbersMerge(o, m);
    var o8 := StringsMerge(o5, m);
    var o11 := FlagsMerge(o8, m);
  }

  lemma SetNone(o: Order, fs: seq<Field>)
    requires fs == []
    ensures SetFields(o, fs) == o
  {
  }

  /** Reading an encoded message merges it into the one at hand and goes on behind it. */
  lemma MessageParses(data: seq<Byte>, i: nat, o: Order, m: Order)
    requires i + |Encode(m)| <= |data| < TWO63 && data[i..i + |Encode(m)|] == Encode(m)
    ensures Unmarshal(data, i, o) == Unmarshal(data, i + |Encode(m)|, Merge(o, m))
  {
    hide EncodeFields, Unmarshal, SetFields;
    FieldsParse(data, i, o, Fields(m));
    SetFieldsMerges(o, m);
  }

  lemma ParseEnds(data: seq<Byte>, i: nat, o: Order)
    requires i >= |data|
    ensures Unmarshal(data, i, o) == Ok(o)
  {
  }

  lemma MergeFresh(m: Order)
    ensures Merge(FRESH, m) == m
  {
  }

  /** Unmarshalling undoes marshalling. */
  lemma RoundTrip(m: Order)
    requires |Encode(m)| < TWO63
    ensures Unmarshal(Encode(m), 0, FRESH) == Ok(m)
  {
    hide Encode, Merge, Unmarshal;
    assert Encode(m)[0..0 + |Encode(m)|] == Encode(m);
    MessageParses(Encode(m), 0, FRESH, m);
    MergeFresh(m);
    ParseEnds(Encode(m), |Encode(m)|, m);
  }

  /** Two messages one after the other are their merge. */
  lemma ConcatenationMerges(a: Order, b: Order)
    requires |Encode(a) + Encode(b)| < TWO63
    ensures Unmarshal(Encode(a) + Encode(b), 0, FRESH) == Ok(Merge(a, b))
  {
    hide Encode, Merge, Unmarshal;
    var data := Encode(a) + Encode(b);
    assert data[0..0 + |Encode(a)|] == Encode(a);
    assert data[|Encode(a)|..|Encode(a)| + |Encode(b)|] == Encode(b);
    MessageParses(data, 0, FRESH, a);
    MergeFresh(a);
    MessageParses(data, |Encode(a)|, a, b);
    ParseEnds(data, |data|, Merge(a, b));
  }

  // ---------------------------------------------------------------- byte by byte

  /** The bytes of a varint: byte k has bits 7k to 7k + 6 of the number, and the top bit unless it is the last. */
  lemma {:induction false} VarintBytes(v: nat, k: nat)
    requires k < |Varint(v)|
    ensures Varint(v)[k] == v / Pow2(7 * k) % 128 + if k + 1 < |Varint(v)| then 128 else 0
    decreases v
  {
    hide Pow2;
    Pow2Zero();
    if k > 0 {
      VarintBytes(v / 128, k - 1);
      SevenBits(v, k - 1);
    }
  }

  /** There are as many bytes as the number needs, but at least one. */
  lemma {:induction false} VarintLength(v: nat)
    ensures var n := |Varint(v)|; v < Pow2(7 * n) && (n > 1 ==> v >= Pow2(7 * (n - 1)))
    decreases v
  {
    hide Pow2;
    Pow2Values();
    Pow2Zero();
    if v >= 128 {
      VarintLength(v / 128);
      var n := |Varint(v / 128)|;
      SevenBits(v, n);
      SevenBits(v, n - 1);
    }
  }

  lemma Pow2Zero()
    ensures Pow2(0) == 1
  {
  }

  lemma SevenBits(v: nat, k: nat)
    ensures v / Pow2(7 * (k + 1)) == v / 128 / Pow2(7 * k)
    ensures v < Pow2(7 * (k + 1)) <==> v / 128 < Pow2(7 * k)
  {
    Pow2Values();
    Pow2Add(7, 7 * k);
    assert 7 * (k + 1) == 7 + 7 * k;
    DivideTwice(v, 128, Pow2(7 * k));
  }

  /** A number with its tag, or nothing. */
  function NumberBytes(tag: Byte, v: U64): seq<Byte> {
    if v == 0 then [] else [tag] + Varint(v)
  }

  /** A byte string with its tag and its length, or nothing. */
  function StringBytes(tag: Byte, b: seq<Byte>): seq<Byte> {
    if b == [] then [] else [tag] + Varint(|b|) + b
  }

  /** The bytes of a message: every field under its tag, in this order. */
  lemma MessageBytes(o: Order)
    ensures Encode(o) ==
      NumberBytes(0x08, o.uid) + (NumberBytes(0x10, o.nonce) + (NumberBytes(0x18, o.price) +
      (NumberBytes(0x20, o.amount) + (NumberBytes(0x28, o.linkedOrderId) + (StringBytes(0x32, o.signature) +
      (StringBytes(0x3a, o.userOrderId) + (StringBytes(0x42, o.symbol) + (NumberBytes(0x48, o.opCode) +
      (NumberBytes(0x50, o.flags) + NumberBytes(0x58, o.ordersFlag))))))))))
  {
    hide EncodeFields, Fields, NumberBytes, StringBytes;
    var fs := FieldsOf(o);
    NextNumber(fs, 0, 1, o.uid);
    NextNumber(fs, 1, 2, o.nonce);
    NextNumber(fs, 2, 3, o.price);
    NextNumber(fs, 3, 4, o.amount);
    NextNumber(fs, 4, 5, o.linkedOrderId);
    NextString(fs, 5, 6, o.signature);
    NextString(fs, 6, 7, o.userOrderId);
    NextString(fs, 7, 8, o.symbol);
    NextNumber(fs, 8, 9, o.opCode);
    NextNumber(fs, 9, 10, o.flags);
    NextNumber(fs, 10, 11, o.ordersFlag);
    NoBytes(fs[11..]);
  }

  lemma FieldsOf(o: Order) returns (fs: seq<Field>)
    ensures fs == Fields(o) && |fs| == 11 && Encode(o) == EncodeFields(fs[0..])
    ensures fs[0] == VarF(1, o.uid) && fs[1] == VarF(2, o.nonce) && fs[2] == VarF(3, o.price)
    ensures fs[3] == VarF(4, o.amount) && fs[4] == VarF(5, o.linkedOrderId) && fs[5] == BytesF(6, o.signature)
    ensures fs[6] == BytesF(7, o.userOrderId) && fs[7] == BytesF(8, o.symbol) && fs[8] == VarF(9, o.opCode)
    ensures fs[9] == VarF(10, o.flags) && fs[10] == VarF(11, o.ordersFlag)
  {
    fs := Fields(o);
    assert fs[0..] == fs;
  }

  lemma NextNumber(fs: seq<Field>, k: nat, num: FieldNumber, v: U64)
    requires k < |fs| && fs[k] == VarF(num, v)
    ensures EncodeFields(fs[k..]) == NumberBytes(8 * num, v) + EncodeFields(fs[k + 1..])
  {
    hide Varint;
    EncodeFrom(fs, k);
  }

  lemma NextString(fs: seq<Field>, k: nat, num: FieldNumber, b: seq<Byte>)
    requires k < |fs| && fs[k] == BytesF(num, b)
    ensures EncodeFields(fs[k..]) == StringBytes(8 * num + 2, b) + EncodeFields(fs[k + 1..])
  {
    hide Varint;
    EncodeFrom(fs, k);
  }

  lemma NoBytes(fs: seq<Field>)
    requires fs == []
    ensures EncodeFields(fs) == []
  {
  }

  /** The number that a string of seven-bit groups stands for. */
  function Groups(bs: seq<Byte>): nat {
    if bs == [] then 0 else bs[0] % 128 + 128 * Groups(bs[1..])
  }

  /** What a varint loop makes of any input at all.  n bytes with the top bit set are followed by one without, or by the
      end of the input, or are ten, which is too many. */
  lemma ReadLaw(data: seq<Byte>, i: nat, n: nat)
    requires n <= 10 && i + n <= |data| && forall j :: i <= j < i + n ==> data[j] >= 128
    requires n < 10 && i + n < |data| ==> data[i + n] < 128
    ensures ReadVarint(data, i) ==
      if n == 10 then Bad(IntOverflow)
      else if i + n == |data| then Bad(UnexpectedEOF)
      else Got(Groups(data[i..i + n + 1]) % 0x1_0000_0000_0000_0000, i + n + 1)
  {
    ReadFromLaw(data, i, n, 0, 0);
  }

  lemma {:induction false} ReadFromLaw(data: seq<Byte>, i: nat, n: nat, k: nat, acc: nat)
    requires k + n <= 10 && i + n <= |data| && forall j :: i <= j < i + n ==> data[j] >= 128
    requires k + n < 10 && i + n < |data| ==> data[i + n] < 128
    ensures ReadFrom(data, i, 7 * k, acc % TWO64) ==
      if k + n == 10 then Bad(IntOverflow)
      else if i + n == |data| then Bad(UnexpectedEOF)
      else Got((acc + Groups(data[i..i + n + 1]) * Pow2(7 * k)) % TWO64, i + n + 1)
    decreases n
  {
    hide Pow2, Groups;
    if k < 10 && i < |data| {
      var p, g := Pow2(7 * k), data[i] % 128;
      ModPlus(acc, g * p, TWO64);
      if n > 0 {
        ReadFromLaw(data, i + 1, n - 1, k + 1, acc + g * p);
        if k + n < 10 && i + n < |data| { OneMoreGroup(data[i..i + n + 1], k); }
      } else {
        OneGroup(data[i..i + 1]);
      }
    }
  }

  lemma OneGroup(bs: seq<Byte>)
    requires |bs| == 1
    ensures Groups(bs) == bs[0] % 128
  {
  }

  lemma OneMoreGroup(bs: seq<Byte>, k: nat)
    requires bs != []
    ensures Groups(bs) * Pow2(7 * k) == bs[0] % 128 * Pow2(7 * k) + Groups(bs[1..]) * Pow2(7 * (k + 1))
  {
    hide Pow2;
    Pow2Values();
    Pow2Add(7 * k, 7);
    assert 7 * (k + 1) == 7 * k + 7;
    Distribute(Groups(bs[1..]), bs[0] % 128, Pow2(7 * k));
  }

  /** What a tag of one byte that cannot be read on ends in: wire type 4, field 0, a wire type that its field does not
      have, or a field that there is not. */
  lemma TagErrors(data: seq<Byte>, i: nat, num: nat, wire: nat, o: Order)
    requires i < |data| && num < 16 && wire < 8 && data[i] == 8 * num + wire
    ensures wire == 4 ==> ParseField(data, i, o) == Failed(EndGroup)
    ensures wire != 4 && num == 0 ==> ParseField(data, i, o) == Failed(IllegalTag)
    ensures wire != 4 && num in {1, 2, 3, 4, 5, 9, 10, 11} && wire != 0 ==>
      ParseField(data, i, o) == Failed(WrongWireType)
    ensures wire != 4 && num in {6, 7, 8} && wire != 2 ==> ParseField(data, i, o) == Failed(WrongWireType)
    ensures wire != 4 && num in {12, 13, 14, 15} ==> ParseField(data, i, o) == Failed(UnknownField)
  {
    TagParses(data, i, 8 * num + wire);
    assert (8 * num + wire) / 8 == num && (8 * num + wire) % 8 == wire;
  }
}
