/** Rows as records: a header of type codes, which counts its own length, then the values. */
module Record {
  import opened Bytes
  import opened Integers
  import opened BTreePage
  import opened Varint

  type I64 = i: int | -0x8000_0000_0000_0000 <= i < 0x8000_0000_0000_0000
  /** Byte strings short enough for their type code to fit 64 bits. */
  type Data = s: seq<Byte> | |s| < 0x7FFF_FFFF_FFFF_FFFA
  /** The eight bytes of a floating-point number. */
  type Double = s: seq<Byte> | |s| == 8 witness [0, 0, 0, 0, 0, 0, 0, 0]

  datatype Value =
    | Null
    | Int(i: I64)
    | Real(f: Double)
    | Text(text: Data)
    | Blob(blob: Data)
    | ZeroBlob(len: I64)

  /** No vector of 32-byte values is longer. */
  type Row = vs: seq<Value> | |vs| < 0x400_0000_0000_0000

  datatype Field = Field(value: Value, size: nat)

  // ---- Integers of k bytes ----

  function Pow256(k: nat): (r: nat)
    ensures r >= 1
  {
    if k == 0 then 1 else 256 * Pow256(k - 1)
  }

  function BigEndian(u: nat, k: nat): (s: seq<Byte>)
    ensures |s| == k
  {
    if k == 0 then [] else BigEndian(u / 256, k - 1) + [u % 256]
  }

  function Unsigned(s: seq<Byte>): nat {
    if s == [] then 0 else Unsigned(s[..|s| - 1]) * 256 + s[|s| - 1]
  }

  /** Two's complement, most significant byte first. */
  function TwosComplement(i: int, k: nat): (s: seq<Byte>)
    requires i + Pow256(k) >= 0
    ensures |s| == k
  {
    BigEndian(if i < 0 then i + Pow256(k) else i, k)
  }

  function Signed(s: seq<Byte>): int {
    if s != [] && s[0] >= 128 then Unsigned(s) - Pow256(|s|) else Unsigned(s)
  }

  lemma {:induction false} UnsignedBack(u: nat, k: nat)
    requires u < Pow256(k)
    ensures Unsigned(BigEndian(u, k)) == u
    decreases k
  {
    if k > 0 {
      var s := BigEndian(u, k);
      assert s[..k - 1] == BigEndian(u / 256, k - 1);
      assert u / 256 < Pow256(k - 1);
      UnsignedBack(u / 256, k - 1);
    }
  }

  lemma {:induction false} TopByte(u: nat, k: nat)
    requires 0 < k && u < Pow256(k)
    ensures BigEndian(u, k)[0] >= 128 <==> u >= 128 * Pow256(k - 1)
    decreases k
  {
    if k > 1 {
      assert u / 256 < Pow256(k - 1);
      TopByte(u / 256, k - 1);
      var h := Pow256(k - 2);
      assert Pow256(k - 1) == 256 * h;
      assert u / 256 >= 128 * h <==> u >= 128 * (256 * h) by {
        DivAtLeast(u, 128 * h);
      }
    }
  }

  lemma DivAtLeast(u: nat, m: nat)
    ensures u / 256 >= m <==> u >= 256 * m
  {
  }

  /** Sign extension undoes two's complement. */
  lemma SignedBack(i: int, k: nat)
    requires 0 < k && -128 * Pow256(k - 1) <= i < 128 * Pow256(k - 1)
    ensures Signed(TwosComplement(i, k)) == i
  {
    var u := if i < 0 then i + Pow256(k) else i;
    UnsignedBack(u, k);
    TopByte(u, k);
  }

  // ---- Values ----

  /** Bytes that the integer takes; 0 and 1 have type codes of their own. */
  function Width(i: I64): nat {
    if i == 0 || i == 1 then 0
    else if -0x80 <= i <= 0x7F then 1
    else if -0x8000 <= i <= 0x7FFF then 2
    else if -0x80_0000 <= i <= 0x7F_FFFF then 3
    else if -0x8000_0000 <= i <= 0x7FFF_FFFF then 4
    else if -0x8000_0000_0000 <= i <= 0x7FFF_FFFF_FFFF then 6
    else 8
  }

  function SerialType(v: Value): U64 {
    match v
    case Null => 0
    case Int(i) =>
      if i == 0 then 8 else if i == 1 then 9
      else if Width(i) == 6 then 5 else if Width(i) == 8 then 6 else Width(i)
    case Real(_) => 7
    case Text(t) => |t| * 2 + 13
    case Blob(b) => |b| * 2 + 12
    case ZeroBlob(_) => 0
  }

  lemma Powers()
    ensures Pow256(0) == 1 && Pow256(1) == 0x100 && Pow256(2) == 0x1_0000 && Pow256(3) == 0x100_0000 && Pow256(4) == 0x1_0000_0000
    ensures Pow256(5) == 0x100_0000_0000 && Pow256(6) == 0x1_0000_0000_0000 && Pow256(7) == 0x100_0000_0000_0000
    ensures Pow256(8) == 0x1_0000_0000_0000_0000
  {
    assert Pow256(1) == 0x100 && Pow256(2) == 0x1_0000 && Pow256(3) == 0x100_0000;
    assert Pow256(4) == 0x1_0000_0000 && Pow256(5) == 0x100_0000_0000 && Pow256(6) == 0x1_0000_0000_0000;
  }

  function Payload(v: Value): seq<Byte> {
    match v
    case Null => []
    case Int(i) => Powers(); TwosComplement(i, Width(i))
    case Real(f) => f
    case Text(t) => t
    case Blob(b) => b
    case ZeroBlob(_) => []
  }

  /** One value with the given type code, from the front of `p`. */
  function DecodeValue(t: U64, p: seq<Byte>): (r: Result<Field>)
    ensures r.Ok? ==> r.value.size <= |p|
  {
    if t == 0 then Ok(Field(Null, 0))
    else if 1 <= t <= 6 then
      var n := if t == 5 then 6 else if t == 6 then 8 else t;
      if |p| < n then Err(BufferTooShort) else SignedRange(p[..n]); Ok(Field(Int(Signed(p[..n])), n))
    else if t == 7 then
      if |p| < 8 then Err(BufferTooShort) else Ok(Field(Real(p[..8]), 8))
    else if t == 8 then Ok(Field(Int(0), 0))
    else if t == 9 then Ok(Field(Int(1), 0))
    else if t >= 12 && t % 2 == 0 then
      var n := (t - 12) / 2;
      if |p| < n then Err(BufferTooShort) else Ok(Field(Blob(p[..n]), n))
    else if t >= 13 then
      var n := (t - 13) / 2;
      if |p| < n then Err(BufferTooShort) else Ok(Field(Text(p[..n]), n))
    else Err(InvalidSerialType(t))
  }

  lemma {:induction false} UnsignedRange(s: seq<Byte>)
    ensures Unsigned(s) < Pow256(|s|)
    ensures s != [] && s[0] >= 128 ==> Unsigned(s) >= 128 * Pow256(|s| - 1)
    ensures s != [] && s[0] < 128 ==> Unsigned(s) < 128 * Pow256(|s| - 1)
    decreases |s|
  {
    if s != [] {
      var init := s[..|s| - 1];
      UnsignedRange(init);
      assert init != [] ==> init[0] == s[0];
    }
  }

  lemma SignedRange(s: seq<Byte>)
    requires 0 < |s| <= 8
    ensures -0x8000_0000_0000_0000 <= Signed(s) < 0x8000_0000_0000_0000
  {
    UnsignedRange(s);
    Powers();
  }

  lemma ValueBack(v: Value, rest: seq<Byte>)
    requires !v.ZeroBlob?
    ensures DecodeValue(SerialType(v), Payload(v) + rest) == Ok(Field(v, |Payload(v)|))
  {
    hide Signed, TwosComplement, Pow256;
    var p := Payload(v);
    assert (p + rest)[..|p|] == p;
    if v.Int? && Width(v.i) > 0 {
      Powers();
      SignedBack(v.i, Width(v.i));
    }
  }

  // ---- Rows ----

  function Header(vs: seq<Value>): seq<Byte> {
    if vs == [] then [] else Header(vs[..|vs| - 1]) + Encoded(SerialType(vs[|vs| - 1]))
  }

  function Payloads(vs: seq<Value>): seq<Byte> {
    if vs == [] then [] else Payloads(vs[..|vs| - 1]) + Payload(vs[|vs| - 1])
  }

  function Types(vs: seq<Value>): (ts: seq<U64>)
    ensures |ts| == |vs|
  {
    seq(|vs|, i requires 0 <= i < |vs| => SerialType(vs[i]))
  }

  predicate Encodable(vs: seq<Value>) {
    forall i :: 0 <= i < |vs| ==> !vs[i].ZeroBlob?
  }

  lemma {:induction false} HeaderLength(vs: seq<Value>)
    ensures |Header(vs)| <= 9 * |vs|
  {
    if vs != [] {
      HeaderLength(vs[..|vs| - 1]);
    }
  }

  lemma LengthMono(a: U64, b: U64)
    requires a <= b
    ensures VarintLength(a) <= VarintLength(b)
  {
  }

  /** The bytes that the header length takes, starting the search at n. */
  function LengthBytes(h: nat, n: nat): (r: nat)
    requires h < 0x4000_0000_0000_0000 && n <= 9 && n <= VarintLength(h + n)
    ensures n <= r <= 9 && VarintLength(h + r) == r
    decreases 9 - n
  {
    var m := VarintLength(h + n);
    if m == n then n
    else
      LengthMono(h + n, h + m);
      LengthBytes(h, m)
  }

  lemma {:induction false} LengthBytesLeast(h: nat, n: nat, j: nat)
    requires h < 0x4000_0000_0000_0000 && n <= 9 && n <= VarintLength(h + n)
    requires n <= j <= 9 && VarintLength(h + j) == j
    ensures LengthBytes(h, n) <= j
    decreases 9 - n
  {
    var m := VarintLength(h + n);
    LengthMono(h + n, h + j);
    LengthMono(h + n, h + m);
    if m != n {
      LengthBytesLeast(h, m, j);
    }
  }

  /** The header length: the smallest number that counts the header and its own encoding. */
  function HeaderSize(h: nat): (hs: U64)
    requires h < 0x4000_0000_0000_0000
    ensures hs == h + VarintLength(hs)
  {
    LengthMono(h, h + VarintLength(h));
    h + LengthBytes(h, VarintLength(h))
  }

  lemma HeaderSizeLeast(h: nat, k: U64)
    requires h < 0x4000_0000_0000_0000 && k == h + VarintLength(k)
    ensures HeaderSize(h) <= k
  {
    LengthMono(h, k);
    LengthMono(h, h + VarintLength(h));
    LengthBytesLeast(h, VarintLength(h), VarintLength(k));
  }

  function EncodedRecord(vs: Row): seq<Byte>
    requires Encodable(vs)
  {
    HeaderLength(vs);
    Encoded(HeaderSize(|Header(vs)|)) + Header(vs) + Payloads(vs)
  }

  /** The type codes from `pos` up to the end of the header. */
  function ReadTypes(buf: seq<Byte>, pos: nat, size: nat): Result<seq<U64>>
    requires pos <= |buf| && size <= |buf|
    decreases |buf| - pos
  {
    if pos >= size then Ok([])
    else
      match DecodeFrom(buf[pos..], 0, 0)
      case Err(e) => Err(e)
      case Ok(t) =>
        match ReadTypes(buf, pos + t.size, size)
        case Err(e) => Err(e)
        case Ok(rest) => Ok([t.value] + rest)
  }

  function ReadValues(types: seq<U64>, p: seq<Byte>): Result<seq<Value>>
    decreases |types|
  {
    if types == [] then Ok([])
    else
      match DecodeValue(types[0], p)
      case Err(e) => Err(e)
      case Ok(f) =>
        match ReadValues(types[1..], p[f.size..])
        case Err(e) => Err(e)
        case Ok(rest) => Ok([f.value] + rest)
  }

  function DecodedRecord(buf: seq<Byte>): Result<seq<Value>> {
    if buf == [] then Ok([])
    else
      match DecodeFrom(buf, 0, 0)
      case Err(e) => Err(e)
      case Ok(h) =>
        if h.value > |buf| then Err(BufferTooShort)
        else
          match ReadTypes(buf, h.size, h.value)
          case Err(e) => Err(e)
          case Ok(types) => ReadValues(types, buf[h.value..])
  }

  lemma {:induction false} HeaderConcat(a: seq<Value>, b: seq<Value>)
    ensures Header(a + b) == Header(a) + Header(b) && Payloads(a + b) == Payloads(a) + Payloads(b)
    decreases |b|
  {
    hide Header, Payloads;
    if b == [] {
      assert a + b == a;
      HeaderNone();
    } else {
      var init, x := b[..|b| - 1], b[|b| - 1];
      assert b == init + [x] && a + b == (a + init) + [x];
      HeaderConcat(a, init);
      HeaderLast(a + init, x);
      HeaderLast(init, x);
    }
  }

  lemma HeaderNone()
    ensures Header([]) == [] && Payloads([]) == []
  {
  }

  lemma HeaderLast(s: seq<Value>, x: Value)
    ensures Header(s + [x]) == Header(s) + Encoded(SerialType(x)) && Payloads(s + [x]) == Payloads(s) + Payload(x)
  {
    hide Encoded, SerialType, Payload;
    assert (s + [x])[..|s|] == s;
  }

  lemma HeaderFirst(vs: seq<Value>)
    requires vs != []
    ensures Header(vs) == Encoded(SerialType(vs[0])) + Header(vs[1..])
    ensures Payloads(vs) == Payload(vs[0]) + Payloads(vs[1..])
  {
    hide Encoded, SerialType, Payload;
    assert vs == [vs[0]] + vs[1..];
    HeaderConcat([vs[0]], vs[1..]);
    HeaderOne(vs[0]);
  }

  lemma HeaderEmpty()
    ensures Header([]) == [] && Types([]) == []
  {
  }

  lemma TypesFirst(vs: seq<Value>)
    requires vs != []
    ensures Types(vs) == [SerialType(vs[0])] + Types(vs[1..])
  {
    hide SerialType;
  }

  lemma HeaderOne(v: Value)
    ensures Header([v]) == Encoded(SerialType(v)) && Payloads([v]) == Payload(v)
  {
    hide Encoded, SerialType, Payload;
    assert [v][..0] == [];
    assert [] + Encoded(SerialType(v)) == Encoded(SerialType(v)) && [] + Payload(v) == Payload(v);
  }

  /** The type codes in the header are read back. */
  lemma {:induction false} TypesBack(pre: seq<Byte>, vs: seq<Value>, post: seq<Byte>)
    ensures ReadTypes(pre + Header(vs) + post, |pre|, |pre| + |Header(vs)|) == Ok(Types(vs))
    decreases |vs|
  {
    hide DecodeFrom, Encoded, SerialType, Header, Types;
    var buf := pre + Header(vs) + post;
    if vs == [] {
      HeaderEmpty();
    } else {
      HeaderFirst(vs);
      var t := SerialType(vs[0]);
      var x := Encoded(t);
      var rest := Header(vs[1..]) + post;
      assert buf[|pre|..] == x + rest;
      VarintRoundTrip(t, rest);
      assert buf == (pre + x) + Header(vs[1..]) + post;
      TypesBack(pre + x, vs[1..], post);
      TypesFirst(vs);
    }
  }

  lemma {:induction false} ValuesBack(vs: seq<Value>)
    requires Encodable(vs)
    ensures ReadValues(Types(vs), Payloads(vs)) == Ok(vs)
    decreases |vs|
  {
    hide DecodeValue, Payload, SerialType, Payloads, Types, Header;
    if vs == [] {
      HeaderEmpty();
    } else {
      var rest := Payloads(vs[1..]);
      HeaderFirst(vs);
      TypesFirst(vs);
      ValueBack(vs[0], rest);
      assert (Payload(vs[0]) + rest)[|Payload(vs[0])|..] == rest;
      assert ([SerialType(vs[0])] + Types(vs[1..]))[1..] == Types(vs[1..]);
      ValuesBack(vs[1..]);
      assert vs == [vs[0]] + vs[1..];
    }
  }

  /** Decoding undoes encoding, for every row without a zero-blob placeholder. */
  lemma RecordRoundTrip(vs: Row)
    requires Encodable(vs)
    ensures DecodedRecord(EncodedRecord(vs)) == Ok(vs)
  {
    hide DecodeFrom, Encoded, Header, Payloads, HeaderSize;
    HeaderLength(vs);
    var hs := HeaderSize(|Header(vs)|);
    var x := Encoded(hs);
    var buf := EncodedRecord(vs);
    assert buf == x + (Header(vs) + Payloads(vs));
    VarintRoundTrip(hs, Header(vs) + Payloads(vs));
    TypesBack(x, vs, Payloads(vs));
    assert buf[hs..] == Payloads(vs);
    ValuesBack(vs);
  }

  // ---- The bytes of a record ----

  /** The type code of a value: its number of bytes for integers up to four bytes, 5 and 6 for six and eight bytes, 8 and 9 for the constants 0 and 1. */
  lemma TypeCodes(v: Value)
    ensures v.Null? ==> SerialType(v) == 0
    ensures v == Int(0) ==> SerialType(v) == 8
    ensures v == Int(1) ==> SerialType(v) == 9
    ensures v.Int? && -0x80 <= v.i < 0x80 && v.i != 0 && v.i != 1 ==> SerialType(v) == 1
    ensures v.Int? && -0x8000 <= v.i < 0x8000 && !(-0x80 <= v.i < 0x80) ==> SerialType(v) == 2
    ensures v.Int? && -0x80_0000 <= v.i < 0x80_0000 && !(-0x8000 <= v.i < 0x8000) ==> SerialType(v) == 3
    ensures v.Int? && -0x8000_0000 <= v.i < 0x8000_0000 && !(-0x80_0000 <= v.i < 0x80_0000) ==> SerialType(v) == 4
    ensures v.Int? && -0x8000_0000_0000 <= v.i < 0x8000_0000_0000 && !(-0x8000_0000 <= v.i < 0x8000_0000) ==> SerialType(v) == 5
    ensures v.Int? && !(-0x8000_0000_0000 <= v.i < 0x8000_0000_0000) ==> SerialType(v) == 6
    ensures v.Real? ==> SerialType(v) == 7
    ensures v.Blob? ==> SerialType(v) == 12 + 2 * |v.blob|
    ensures v.Text? ==> SerialType(v) == 13 + 2 * |v.text|
  {
  }

  /** The bytes of an integer: as many as its type code says, most significant first, modulo 2^(8 n). */
  lemma IntegerBytes(i: I64)
    ensures
      var p, t := Payload(Int(i)), SerialType(Int(i));
      && |p| == (if t >= 8 then 0 else if t == 6 then 8 else if t == 5 then 6 else t)
      && (|p| > 0 ==> Unsigned(p) == i % Pow256(|p|))
  {
    hide TwosComplement, Unsigned, Pow256;
    Powers();
    if Width(i) > 0 {
      ComplementIs(i, Width(i));
    }
  }

  lemma ComplementIs(i: int, k: nat)
    requires -(Pow256(k) as int) < i < Pow256(k)
    ensures i + Pow256(k) >= 0 && Unsigned(TwosComplement(i, k)) == i % Pow256(k)
  {
    UnsignedBack(if i < 0 then i + Pow256(k) else i, k);
    ModuloIs(i, Pow256(k));
  }

  lemma ModuloIs(i: int, m: int)
    requires m > 0 && -m < i < m
    ensures i % m == if i < 0 then i + m else i
  {
    if i < 0 {
      DivMod(i, m, -1, i + m);
    } else {
      DivMod(i, m, 0, i);
    }
  }

  /** The record of one value: the header's length, the type code and the value's bytes. */
  lemma OneValue(v: Value)
    requires !v.ZeroBlob? && SerialType(v) < 128
    ensures Encodable([v]) && EncodedRecord([v]) == [2, SerialType(v)] + Payload(v)
  {
    hide Payload, SerialType;
    assert [v][..0] == [];
    HeaderNone();
    HeaderLast([], v);
    assert [] + [v] == [v];
    assert Groups(SerialType(v) / 128, 0) == [] && Encoded(SerialType(v)) == [SerialType(v)];
    assert Header([v]) == [SerialType(v)] && Payloads([v]) == Payload(v);
    HeaderSizeLeast(1, 2);
    assert HeaderSize(1) == 2;
    assert Groups(0, 0) == [] && Encoded(2) == [2];
  }

  /** The record of any values: the header's length, the type codes in order, the values' bytes in order. */
  lemma {:induction false} RecordParts(vs: seq<Value>, i: nat)
    requires i < |vs|
    ensures Header(vs) == Header(vs[..i]) + Encoded(SerialType(vs[i])) + Header(vs[i + 1..])
    ensures Payloads(vs) == Payloads(vs[..i]) + Payload(vs[i]) + Payloads(vs[i + 1..])
  {
    hide Encoded, SerialType, Payload, Header, Payloads;
    assert vs == (vs[..i] + [vs[i]]) + vs[i + 1..];
    HeaderConcat(vs[..i] + [vs[i]], vs[i + 1..]);
    HeaderLast(vs[..i], vs[i]);
  }

  // ---- The loops ----

  method EncodeFields(vs: seq<Value>, tmp: array<Byte>) returns (header: seq<Byte>, payload: seq<Byte>, ok: bool)
    requires tmp.Length == 9
    modifies tmp
    ensures ok == Encodable(vs)
    ensures ok ==> header == Header(vs) && payload == Payloads(vs)
  {
    hide Encoded, Payload;
    header, payload, ok := [], [], true;
    var i := 0;
    while i < |vs|
      invariant i <= |vs| && Encodable(vs[..i])
      invariant header == Header(vs[..i]) && payload == Payloads(vs[..i])
    {
      if vs[i].ZeroBlob? {
        return header, payload, false;
      }
      var n := EncodeVarint(SerialType(vs[i]), tmp);
      assert vs[..i + 1][..i] == vs[..i];
      header := header + tmp[..n.value];
      payload := payload + Payload(vs[i]);
      i := i + 1;
    }
    assert vs[..i] == vs;
  }

  /** Iterate until the encoded length no longer changes the size it is part of. */
  method EncodeHeaderSize(h: nat, tmp: array<Byte>) returns (n: nat)
    requires tmp.Length == 9 && h < 0x4000_0000_0000_0000
    modifies tmp
    ensures n <= 9 && tmp[..n] == Encoded(HeaderSize(h))
  {
    hide Encoded;
    var hs := h;
    var r := EncodeVarint(hs, tmp);
    n := r.value;
    LengthMono(h, h + VarintLength(h));
    while hs != h + n
      invariant h <= hs <= h + n && n <= 9 && n == VarintLength(hs) && tmp[..n] == Encoded(hs)
      invariant n <= VarintLength(h + n) && LengthBytes(h, n) == LengthBytes(h, VarintLength(h))
      decreases h + 9 - hs
    {
      hs := h + n;
      LengthMono(hs, h + VarintLength(hs));
      r := EncodeVarint(hs, tmp);
      n := r.value;
    }
  }

  method EncodeRecord(vs: Row) returns (r: Result<seq<Byte>>)
    ensures r == if Encodable(vs) then Ok(EncodedRecord(vs)) else Err(InvalidSerialType(0))
  {
    hide Encoded, Header, HeaderSize;
    var tmp := new Byte[9](_ => 0);
    var header, payload, ok := EncodeFields(vs, tmp);
    if !ok {
      return Err(InvalidSerialType(0));
    }
    HeaderLength(vs);
    var n := EncodeHeaderSize(|header|, tmp);
    r := Ok(tmp[..n] + header + payload);
  }

  method DecodeTypes(buf: seq<Byte>, start: nat, size: nat) returns (r: Result<seq<U64>>)
    requires start <= |buf| && size <= |buf|
    ensures r == ReadTypes(buf, start, size)
  {
    hide DecodeFrom;
    var pos := start;
    var types: seq<U64> := [];
    AfterNone(ReadTypes(buf, pos, size));
    while pos < size
      invariant pos <= |buf|
      invariant After(types, ReadTypes(buf, pos, size)) == ReadTypes(buf, start, size)
      decreases |buf| - pos
    {
      var t := DecodeVarint(buf[pos..]);
      if t.Err? {
        return Err(t.error);
      }
      AfterStep(types, t.value.value, ReadTypes(buf, pos + t.value.size, size));
      types := types + [t.value.value];
      pos := pos + t.value.size;
    }
    assert types + [] == types;
    r := Ok(types);
  }

  method DecodeValues(types: seq<U64>, payload: seq<Byte>) returns (r: Result<seq<Value>>)
    ensures r == ReadValues(types, payload)
  {
    hide DecodeValue;
    var values: seq<Value> := [];
    var p: nat, i := 0, 0;
    assert types[0..] == types && payload[0..] == payload;
    AfterNone(ReadValues(types, payload));
    while i < |types|
      invariant i <= |types| && p <= |payload|
      invariant After(values, ReadValues(types[i..], payload[p..])) == ReadValues(types, payload)
    {
      var f := DecodeValue(types[i], payload[p..]);
      if f.Err? {
        return Err(f.error);
      }
      assert types[i..][1..] == types[i + 1..] && payload[p..][f.value.size..] == payload[p + f.value.size..];
      AfterStep(values, f.value.value, ReadValues(types[i + 1..], payload[p + f.value.size..]));
      values := values + [f.value.value];
      p := p + f.value.size;
      i := i + 1;
    }
    assert values + [] == values;
    r := Ok(values);
  }

  method DecodeRecord(buf: seq<Byte>) returns (r: Result<seq<Value>>)
    ensures r == DecodedRecord(buf)
  {
    if buf == [] {
      return Ok([]);
    }
    var h := DecodeVarint(buf);
    if h.Err? {
      return Err(h.error);
    }
    var size := h.value.value;
    if size > |buf| {
      return Err(BufferTooShort);
    }
    var types := DecodeTypes(buf, h.value.size, size);
    if types.Err? {
      return Err(types.error);
    }
    r := DecodeValues(types.value, buf[size..]);
  }

  ghost function After<T>(done: seq<T>, r: Result<seq<T>>): Result<seq<T>> {
    match r
    case Err(e) => Err(e)
    case Ok(rest) => Ok(done + rest)
  }

  lemma AfterNone<T>(r: Result<seq<T>>)
    ensures After([], r) == r
  {
    if r.Ok? {
      assert [] + r.value == r.value;
    }
  }

  lemma AfterStep<T>(done: seq<T>, x: T, r: Result<seq<T>>)
    ensures After(done, After([x], r)) == After(done + [x], r)
  {
    if r.Ok? {
      assert done + ([x] + r.value) == done + [x] + r.value;
    }
  }
}
