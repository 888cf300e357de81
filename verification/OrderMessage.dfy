/** The `Order` message and its generated methods, over the wire format of OrderCodec. */
module OrderMessage {
  import opened Arithmetic
  import opened Words
  import opened OrderCodec

  // ---------------------------------------------------------------- varints in place

  /** `bits.Len64(x)` */
  function BitLength(x: nat): nat {
    if x == 0 then 0 else 1 + BitLength(x / 2)
  }

  /** The runtime's size of a varint, by the length of `x | 1`. */
  function SizeOfVarint(x: nat): nat {
    (BitLength(BitOr(1, x)) + 6) / 7
  }

  lemma {:induction false} SizeIsLength(x: nat)
    ensures SizeOfVarint(x) == |Varint(x)|
    decreases x
  {
    assert BitOr(1, x) == 1 + 2 * (x / 2);
    if x < 128 {
      ShortLength(1 + 2 * (x / 2));
    } else {
      SizeIsLength(x / 128);
      assert BitOr(1, x / 128) == 1 + 2 * (x / 128 / 2);
      SameLength(x);
      SameLength(x / 128);
      SevenMore(x);
    }
  }

  lemma SameLength(x: nat)
    requires x > 0
    ensures BitLength(1 + 2 * (x / 2)) == BitLength(x)
  {
  }

  lemma SevenMore(x: nat)
    requires x >= 128
    ensures BitLength(x) == 7 + BitLength(x / 128)
  {
    var a, b, c := x / 2, x / 4, x / 8;
    var d, e, f := x / 16, x / 32, x / 64;
    assert b == a / 2 && c == b / 2 && d == c / 2 && e == d / 2 && f == e / 2 && x / 128 == f / 2;
    assert BitLength(x) == 1 + BitLength(a) == 2 + BitLength(b) == 3 + BitLength(c);
    assert BitLength(c) == 1 + BitLength(d) == 2 + BitLength(e) == 3 + BitLength(f);
  }

  lemma ShortLength(x: nat)
    requires 0 < x < 128
    ensures 1 <= BitLength(x) <= 7
  {
    var a, b, c := x / 2, x / 4, x / 8;
    var d, e, f := x / 16, x / 32, x / 64;
    assert b == a / 2 && c == b / 2 && d == c / 2 && e == d / 2 && f == e / 2 && f <= 1;
    assert BitLength(x) == 1 + BitLength(a);
    assert BitLength(a) <= 1 + BitLength(b) <= 2 + BitLength(c) <= 3 + BitLength(d) <= 4 + BitLength(e);
    assert BitLength(e) <= 1 + BitLength(f) <= 2;
  }

  /** The buffer `was`, with e written over what ended at position at. */
  function WriteBefore(was: seq<Byte>, at: nat, e: seq<Byte>): seq<Byte>
    requires |e| <= at <= |was|
  {
    was[..at - |e|] + e + was[at..]
  }

  /** The runtime's writer: the varint ends just before `at`. */
  method EncodeVarint(dAtA: array<Byte>, at: nat, value: U64) returns (base: nat)
    requires |Varint(value)| <= at <= dAtA.Length
    modifies dAtA
    ensures base == at - |Varint(value)|
    ensures dAtA[..] == WriteBefore(old(dAtA[..]), at, Varint(value))
  {
    hide WriteBefore;
    SizeIsLength(value);
    var offset := at - SizeOfVarint(value);
    base := offset;
    var v: nat := value;
    ghost var was: seq<Byte>, done: seq<Byte> := dAtA[..], [];
    while v >= 128
      invariant offset == base + |done| && offset + |Varint(v)| == at
      invariant done + Varint(v) == Varint(value)
      invariant dAtA[..] == was[..base] + done + was[offset..]
    {
      var low: Byte := 128 + v % 128;
      Associate(done, [low], Varint(v / 128));
      ghost var before := dAtA[..];
      dAtA[offset] := low;
      WriteNext(was, base, done, low, before, dAtA[..]);
      done := done + [low];
      v := v / 128;
      offset := offset + 1;
    }
    ghost var before := dAtA[..];
    dAtA[offset] := v;
    WriteNext(was, base, done, v, before, dAtA[..]);
    LastByte(was, at, value, done, v, dAtA[..]);
  }

  lemma LastByte(was: seq<Byte>, at: nat, value: nat, done: seq<Byte>, v: Byte, now: seq<Byte>)
    requires v < 128 && done + Varint(v) == Varint(value) && |Varint(value)| <= at <= |was|
    requires now == was[..at - |Varint(value)|] + (done + [v]) + was[at..]
    ensures now == WriteBefore(was, at, Varint(value))
  {
    assert Varint(v) == [v];
  }

  /** A buffer written one byte further. */
  lemma WriteNext(was: seq<Byte>, base: nat, done: seq<Byte>, x: Byte, before: seq<Byte>, now: seq<Byte>)
    requires base + |done| < |was| && before == was[..base] + done + was[base + |done|..]
    requires now == before[base + |done| := x]
    ensures now == was[..base] + (done + [x]) + was[base + |done| + 1..]
  {
  }

  lemma Associate(a: seq<Byte>, b: seq<Byte>, c: seq<Byte>)
    ensures a + (b + c) == a + b + c
  {
  }

  /** One round of the parser's varint loops. */
  lemma OrAdds(acc: nat, g: nat, s: nat, w: nat)
    requires acc < Pow2(s) && w <= 64
    ensures BitOr(acc % Pow2(w), ShiftLeft(g, s, w)) == (acc + g * Pow2(s)) % TWO64 % Pow2(w)
  {
    hide Pow2, BitOr;
    Pow2Values();
    Pow2Add(w, 64 - w);
    ModMod(acc + g * Pow2(s), Pow2(w), Pow2(64 - w));
    if s >= w { OrPastTop(acc, g, s, w); } else { OrInside(acc, g, s, w); }
  }

  lemma SumStaysBelow(acc: nat, g: nat, s: nat)
    requires acc < Pow2(s) && g < 128
    ensures (acc + g * Pow2(s)) % TWO64 < Pow2(s + 7)
  {
    hide Pow2;
    Pow2Values();
    Pow2Add(s, 7);
    GroupBound(acc, g, Pow2(s));
    ModBelow(acc + g * Pow2(s), TWO64);
  }

  lemma OrPastTop(acc: nat, g: nat, s: nat, w: nat)
    requires acc < Pow2(s) && s >= w
    ensures BitOr(acc % Pow2(w), ShiftLeft(g, s, w)) == (acc + g * Pow2(s)) % Pow2(w)
  {
    Pow2Add(w, s - w);
    Multiple(g, Pow2(s - w), Pow2(w));
    ModAddMultiple(acc, g * Pow2(s - w), Pow2(w));
    BitOrNothing(acc % Pow2(w));
  }

  lemma OrInside(acc: nat, g: nat, s: nat, w: nat)
    requires acc < Pow2(s) && s < w
    ensures BitOr(acc % Pow2(w), ShiftLeft(g, s, w)) == (acc + g * Pow2(s)) % Pow2(w)
  {
    Pow2Add(s, w - s);
    hide Pow2, BitOr;
    TopBits(acc, g, Pow2(s), Pow2(w - s));
    SmallMod(acc, Pow2(w));
    BitOrDisjoint(acc, g % Pow2(w - s), s);
  }

  /** A varint loop with an accumulator of 32 or 64 bits. */
  method ReadLoop(data: seq<Byte>, at: nat, width: nat) returns (r: Read)
    requires width <= 64
    ensures match ReadVarint(data, at)
            case Bad(_) => r == ReadVarint(data, at)
            case Got(v, next) => r.Got? && r.value == v % Pow2(width) && r.next == next
  {
    var i: nat, shift: nat, acc: nat := at, 0, 0;
    ghost var whole: nat := 0;
    Pow2Monotone(width, 64);
    Pow2Values();
    while true
      invariant shift <= 70 && whole < Pow2(shift) && acc == whole % Pow2(width)
      invariant ReadVarint(data, at) == ReadFrom(data, i, shift, whole)
      decreases 70 - shift
    {
      hide Pow2;
      if shift >= 64 { return Bad(IntOverflow); }
      if i >= |data| { return Bad(UnexpectedEOF); }
      var b := data[i];
      i := i + 1;
      OrAdds(whole, b % 128, shift, width);
      SumStaysBelow(whole, b % 128, shift);
      whole := (whole + b % 128 * Pow2(shift)) % TWO64;
      acc := BitOr(acc, ShiftLeft(b % 128, shift, width));
      if b < 128 {
        ModBelow(whole, Pow2(width));
        return Got(acc, i);
      }
      shift := shift + 7;
    }
  }

  /** The length of a byte string and the checks on it; the string stands between the two positions returned. */
  method ReadString(data: seq<Byte>, at: nat) returns (r: Read)
    requires |data| < TWO63
    ensures r == ReadLength(data, at)
    ensures r.Got? ==> r.value <= r.next <= |data|
  {
    r := ReadLoop(data, at, 64);
    Widths(data, at);
    if r.Bad? { return; }
    var byteLen, start := r.value, r.next;
    if byteLen >= TWO63 { return Bad(InvalidLength); }
    if start + byteLen >= TWO63 { return Bad(InvalidLength); }
    if start + byteLen > |data| { return Bad(UnexpectedEOF); }
    r := Got(start, start + byteLen);
  }

  /** 64-bit accumulators lose nothing; 32-bit ones keep the low half. */
  lemma Widths(data: seq<Byte>, at: nat)
    ensures ReadVarint(data, at).Got? ==> ReadVarint(data, at).value % Pow2(64) == ReadVarint(data, at).value
    ensures Pow2(32) == TWO32
  {
    Pow2Values();
  }

  lemma Unknown(data: seq<Byte>, at: nat, fieldNum: int, wireType: nat, o: Order)
    requires fieldNum > 11
    ensures ParseValue(data, at, fieldNum, wireType, o) == Failed(UnknownField)
  {
  }

  /** A round of the parser with this outcome goes on at r, with the message o, or ends in the same error. */
  predicate Reads(spec: Parsed, r: Read, o: Order) {
    match spec
    case Failed(e) => r == Bad(e)
    case Next(o', at) => r.Got? && r.next == at && o == o'
  }

  // ---------------------------------------------------------------- sizes and places of fields

  /** The size that a number adds. */
  function NumberSize(v: U64): nat {
    if v != 0 then 1 + SizeOfVarint(v) else 0
  }

  /** The size that a byte string adds. */
  function BytesSize(b: seq<Byte>): nat {
    if |b| > 0 then 1 + |b| + SizeOfVarint(|b|) else 0
  }

  function FieldSize(f: Field): nat {
    match f
    case VarF(_, v) => NumberSize(v)
    case BytesF(_, b) => BytesSize(b)
  }

  lemma FieldSizeIsLength(f: Field)
    ensures FieldSize(f) == |EncodeField(f)|
  {
    match f
    case VarF(_, v) => SizeIsLength(v);
    case BytesF(_, b) => SizeIsLength(|b|);
  }

  function TotalSize(fs: seq<Field>): nat {
    if fs == [] then 0 else FieldSize(fs[0]) + TotalSize(fs[1..])
  }

  lemma {:induction false} TotalIsLength(fs: seq<Field>)
    ensures TotalSize(fs) == |EncodeFields(fs)|
  {
    if fs != [] {
      FieldSizeIsLength(fs[0]);
      TotalIsLength(fs[1..]);
    }
  }

  lemma NextSize(fs: seq<Field>, k: nat)
    requires k < |fs|
    ensures TotalSize(fs[k..]) == FieldSize(fs[k]) + TotalSize(fs[k + 1..])
  {
    assert fs[k..][1..] == fs[k + 1..];
  }

  /** The size of a message is what its fields add. */
  lemma MessageSize(o: Order)
    ensures |Encode(o)| ==
      NumberSize(o.uid) + NumberSize(o.nonce) + NumberSize(o.price) + NumberSize(o.amount) +
      NumberSize(o.linkedOrderId) + BytesSize(o.signature) + BytesSize(o.userOrderId) + BytesSize(o.symbol) +
      NumberSize(o.opCode) + NumberSize(o.flags) + NumberSize(o.ordersFlag)
  {
    hide TotalSize, NumberSize, BytesSize;
    var fs := Fields(o);
    assert fs[0..] == fs;
    TotalIsLength(fs);
    TotalIsLength(fs[11..]);
    NoFields(fs[11..]);
    NextSize(fs, 0);
    NextSize(fs, 1);
    NextSize(fs, 2);
    NextSize(fs, 3);
    NextSize(fs, 4);
    NextSize(fs, 5);
    NextSize(fs, 6);
    NextSize(fs, 7);
    NextSize(fs, 8);
    NextSize(fs, 9);
    NextSize(fs, 10);
  }

  lemma NoFields(fs: seq<Field>)
    requires fs == []
    ensures EncodeFields(fs) == []
  {
  }

  /** Two writes in a row, back to front, are one. */
  lemma WriteTwice(was: seq<Byte>, at: nat, e: seq<Byte>, d: seq<Byte>)
    requires |d| + |e| <= at <= |was|
    ensures WriteBefore(WriteBefore(was, at, e), at - |e|, d) == WriteBefore(was, at, d + e)
  {
    var one := WriteBefore(was, at, e);
    var i, j := at - |e| - |d|, at - |e|;
    assert one[..i] == was[..i];
    assert one[j..] == e + was[at..];
    Associate(was[..i] + d, e, was[at..]);
    Associate(was[..i], d, e);
  }

  lemma WriteNothing(was: seq<Byte>, at: nat)
    requires at <= |was|
    ensures WriteBefore(was, at, []) == was
  {
  }

  lemma WriteByte(was: seq<Byte>, at: nat, x: Byte)
    requires 1 <= at <= |was|
    ensures was[at - 1 := x] == WriteBefore(was, at, [x])
  {
  }

  /** A tag and a varint. */
  method PutTagged(dAtA: array<Byte>, at: nat, tag: Byte, v: U64) returns (i: nat)
    requires 1 + |Varint(v)| <= at <= dAtA.Length
    modifies dAtA
    ensures i == at - 1 - |Varint(v)|
    ensures dAtA[..] == WriteBefore(old(dAtA[..]), at, [tag] + Varint(v))
  {
    hide Varint, WriteBefore;
    i := EncodeVarint(dAtA, at, v);
    WriteByte(dAtA[..], i, tag);
    WriteTwice(old(dAtA[..]), at, Varint(v), [tag]);
    i := i - 1;
    dAtA[i] := tag;
  }

  /** `copy(dAtA[i:], b)`, just before at. */
  method PutCopy(dAtA: array<Byte>, at: nat, b: seq<Byte>) returns (i: nat)
    requires |b| <= at <= dAtA.Length
    modifies dAtA
    ensures i == at - |b|
    ensures dAtA[..] == WriteBefore(old(dAtA[..]), at, b)
  {
    i := at - |b|;
    forall k | 0 <= k < |b| { dAtA[i + k] := b[k]; }
  }

  /** A tag, a length and a byte string. */
  method PutString(dAtA: array<Byte>, at: nat, tag: Byte, b: seq<Byte>) returns (i: nat)
    requires 1 + |Varint(|b|)| + |b| <= at <= dAtA.Length < TWO63
    modifies dAtA
    ensures i == at - 1 - |Varint(|b|)| - |b|
    ensures dAtA[..] == WriteBefore(old(dAtA[..]), at, [tag] + Varint(|b|) + b)
  {
    hide Varint, WriteBefore;
    i := PutCopy(dAtA, at, b);
    i := PutTagged(dAtA, i, tag, |b|);
    WriteTwice(old(dAtA[..]), at, b, [tag] + Varint(|b|));
  }

  /** A block of the writer: a number that is not zero. */
  method PutNumber(dAtA: array<Byte>, at: nat, num: FieldNumber, v: U64) returns (i: nat)
    requires |EncodeField(VarF(num, v))| <= at <= dAtA.Length
    modifies dAtA
    ensures i == at - |EncodeField(VarF(num, v))|
    ensures dAtA[..] == WriteBefore(old(dAtA[..]), at, EncodeField(VarF(num, v)))
  {
    WriteNothing(dAtA[..], at);
    hide Varint, WriteBefore;
    i := at;
    if v != 0 { i := PutTagged(dAtA, i, 8 * num + VARINT, v); }
  }

  /** A block of the writer: a byte string that is not empty. */
  method PutBytes(dAtA: array<Byte>, at: nat, num: FieldNumber, b: seq<Byte>) returns (i: nat)
    requires |EncodeField(BytesF(num, b))| <= at <= dAtA.Length < TWO63
    modifies dAtA
    ensures i == at - |EncodeField(BytesF(num, b))|
    ensures dAtA[..] == WriteBefore(old(dAtA[..]), at, EncodeField(BytesF(num, b)))
  {
    WriteNothing(dAtA[..], at);
    hide Varint, WriteBefore;
    i := at;
    if |b| > 0 { i := PutString(dAtA, i, 8 * num + LEN, b); }
  }

  /** A field in front of those that follow it. */
  lemma WriteField(was: seq<Byte>, len: nat, fs: seq<Field>, k: nat)
    requires k < |fs| && |EncodeFields(fs)| <= len <= |was|
    ensures |EncodeFields(fs[k + 1..])| + |EncodeField(fs[k])| <= len
    ensures |EncodeFields(fs[k..])| <= len && |EncodeFields(fs[k..])| ==
      |EncodeFields(fs[k + 1..])| + |EncodeField(fs[k])|
    ensures WriteBefore(WriteBefore(was, len, EncodeFields(fs[k + 1..])), len - |EncodeFields(fs[k + 1..])|,
                        EncodeField(fs[k]))
         == WriteBefore(was, len, EncodeFields(fs[k..]))
  {
    EncodeFrom(fs, k);
    WriteTwice(was, len, EncodeFields(fs[k + 1..]), EncodeField(fs[k]));
  }

  // ---------------------------------------------------------------- the message

  class Message {
    var uid: U64
    var nonce: U64
    var price: U64
    var amount: U64
    var linkedOrderId: U64
    var signature: seq<Byte>
    var userOrderId: seq<Byte>
    var symbol: seq<Byte>
    var opCode: U32
    var flags: U32
    var ordersFlag: U32

    /** The fields as a value. */
    function View(): Order
      reads this
    {
      Order(uid, nonce, price, amount, linkedOrderId, signature, userOrderId, symbol, opCode, flags, ordersFlag)
    }

    constructor ()
      ensures View() == FRESH
    {
      uid, nonce, price, amount, linkedOrderId := 0, 0, 0, 0, 0;
      signature, userOrderId, symbol := [], [], [];
      opCode, flags, ordersFlag := 0, 0, 0;
    }

    // -------------------------------------------------------------- writing

    method SizeVT() returns (n: nat)
      ensures n == |Encode(View())|
    {
      MessageSize(View());
      hide Encode, NumberSize, BytesSize;
      n := 0;
      n := n + NumberSize(uid);
      n := n + NumberSize(nonce);
      n := n + NumberSize(price);
      n := n + NumberSize(amount);
      n := n + NumberSize(linkedOrderId);
      n := n + BytesSize(signature);
      n := n + BytesSize(userOrderId);
      n := n + BytesSize(symbol);
      n := n + NumberSize(opCode);
      n := n + NumberSize(flags);
      n := n + NumberSize(ordersFlag);
    }

    /** The blocks of the writer: back to front, so that the fields come out in the order of their numbers.  What is
        written here is the slice that ends at len. */
    method MarshalToSizedBufferVT(dAtA: array<Byte>, len: nat) returns (n: nat)
      requires |Encode(View())| <= len <= dAtA.Length < TWO63
      modifies dAtA
      ensures n == |Encode(View())|
      ensures dAtA[..] == WriteBefore(old(dAtA[..]), len, Encode(View()))
    {
      hide EncodeField, EncodeFields, WriteBefore;
      ghost var fs, was := Fields(View()), dAtA[..];
      var i := len;
      NoFields(fs[11..]);
      WriteNothing(was, len);
      WriteField(was, len, fs, 10);
      i := PutNumber(dAtA, i, 11, ordersFlag);
      WriteField(was, len, fs, 9);
      i := PutNumber(dAtA, i, 10, flags);
      WriteField(was, len, fs, 8);
      i := PutNumber(dAtA, i, 9, opCode);
      WriteField(was, len, fs, 7);
      i := PutBytes(dAtA, i, 8, symbol);
      WriteField(was, len, fs, 6);
      i := PutBytes(dAtA, i, 7, userOrderId);
      WriteField(was, len, fs, 5);
      i := PutBytes(dAtA, i, 6, signature);
      WriteField(was, len, fs, 4);
      i := PutNumber(dAtA, i, 5, linkedOrderId);
      WriteField(was, len, fs, 3);
      i := PutNumber(dAtA, i, 4, amount);
      WriteField(was, len, fs, 2);
      i := PutNumber(dAtA, i, 3, price);
      WriteField(was, len, fs, 1);
      i := PutNumber(dAtA, i, 2, nonce);
      WriteField(was, len, fs, 0);
      i := PutNumber(dAtA, i, 1, uid);
      assert fs[0..] == fs;
      n := len - i;
    }

    method MarshalToVT(dAtA: array<Byte>) returns (n: nat)
      requires |Encode(View())| <= dAtA.Length < TWO63
      modifies dAtA
      ensures n == |Encode(View())|
      ensures dAtA[..] == Encode(View()) + old(dAtA[n..])
    {
      var size := SizeVT();
      n := MarshalToSizedBufferVT(dAtA, size);
    }

    method MarshalVT() returns (dAtA: array<Byte>, n: nat)
      requires |Encode(View())| < TWO63
      ensures fresh(dAtA) && n == dAtA.Length && dAtA[..n] == Encode(View())
    {
      var size := SizeVT();
      dAtA := new Byte[size];
      n := MarshalToSizedBufferVT(dAtA, size);
    }

    // -------------------------------------------------------------- parsing

    /** The cases for numbers. */
    method ReadNumber(data: seq<Byte>, at: nat, fieldNum: int, wireType: nat) returns (r: Read)
      requires 1 <= fieldNum <= 5 || 9 <= fieldNum <= 11
      modifies this
      ensures Reads(ParseValue(data, at, fieldNum, wireType, old(View())), r, View())
    {
      Widths(data, at);
      hide ReadVarint, Pow2;
      if wireType != VARINT { return Bad(WrongWireType); }
      if fieldNum == 1 {
        r := ReadLoop(data, at, 64);
        if r.Got? { uid := r.value; }
      } else if fieldNum == 2 {
        r := ReadLoop(data, at, 64);
        if r.Got? { nonce := r.value; }
      } else if fieldNum == 3 {
        r := ReadLoop(data, at, 64);
        if r.Got? { price := r.value; }
      } else if fieldNum == 4 {
        r := ReadLoop(data, at, 64);
        if r.Got? { amount := r.value; }
      } else if fieldNum == 5 {
        r := ReadLoop(data, at, 64);
        if r.Got? { linkedOrderId := r.value; }
      } else if fieldNum == 9 {
        r := ReadLoop(data, at, 32);
        if r.Got? { opCode := r.value; }
      } else if fieldNum == 10 {
        r := ReadLoop(data, at, 32);
        if r.Got? { flags := r.value; }
      } else {
        r := ReadLoop(data, at, 32);
        if r.Got? { ordersFlag := r.value; }
      }
    }

    /** The cases for byte strings. */
    method ReadBytes(data: seq<Byte>, at: nat, fieldNum: int, wireType: nat) returns (r: Read)
      requires 6 <= fieldNum <= 8 && |data| < TWO63
      modifies this
      ensures Reads(ParseValue(data, at, fieldNum, wireType, old(View())), r, View())
    {
      hide ReadLength;
      if wireType != LEN { return Bad(WrongWireType); }
      r := ReadString(data, at);
      if r.Bad? { return; }
      var b := data[r.value..r.next];
      if fieldNum == 6 {
        signature := b;
      } else if fieldNum == 7 {
        userOrderId := b;
      } else {
        symbol := b;
      }
      r := Got(0, r.next);
    }

    /** A round of the parser's loop: where the next field starts, with this one set. */
    method ReadField(data: seq<Byte>, at: nat) returns (r: Read)
      requires at < |data| < TWO63
      modifies this
      ensures Reads(ParseField(data, at, old(View())), r, View())
    {
      Widths(data, at);
      hide ReadVarint, Pow2, ParseValue, ToInt32;
      r := ReadLoop(data, at, 64);
      if r.Bad? { return; }
      var fieldNum, wireType := ToInt32(r.value / 8), r.value % 8;
      if wireType == 4 { return Bad(EndGroup); }
      if fieldNum <= 0 { return Bad(IllegalTag); }
      if 6 <= fieldNum <= 8 {
        r := ReadBytes(data, r.next, fieldNum, wireType);
      } else if fieldNum <= 11 {
        r := ReadNumber(data, r.next, fieldNum, wireType);
      } else {
        Unknown(data, r.next, fieldNum, wireType, View());
        r := Bad(UnknownField);
      }
    }

    method UnmarshalVT(data: seq<Byte>) returns (err: Option<Error>)
      requires |data| < TWO63
      modifies this
      ensures match Unmarshal(data, 0, old(View()))
              case Ok(o) => err == None && View() == o
              case Err(e) => err == Some(e)
    {
      var i := 0;
      while i < |data|
        invariant Unmarshal(data, 0, old(View())) == Unmarshal(data, i, View())
      {
        hide ParseField;
        var r := ReadField(data, i);
        if r.Bad? { return Some(r.error); }
        i := r.next;
      }
      err := None;
    }
  }
}
