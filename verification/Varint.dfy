/** Variable-length integers: seven bits a byte, most significant first, all eight in a ninth byte. */
module Varint {
  import opened Bytes
  import opened BTreePage

  type U64 = v: nat | v < 0x1_0000_0000_0000_0000

  datatype RecordError = BufferTooShort | InvalidSerialType(t: U64)
  datatype Result<+T> = Ok(value: T) | Err(error: RecordError)

  /** A number read, and how many bytes it took. */
  datatype Read = Read(value: U64, size: nat)

  function Pow128(k: nat): (r: nat)
    ensures r >= 1
  {
    if k == 0 then 1 else 128 * Pow128(k - 1)
  }

  /** v without its last k groups of seven bits. */
  function Shifted(v: nat, k: nat): nat {
    if k == 0 then v else Shifted(v / 128, k - 1)
  }

  /** The last k groups of v, each with the continuation bit. */
  function Groups(v: nat, k: nat): (s: seq<Byte>)
    ensures |s| == k
  {
    if k == 0 then [] else Groups(v / 128, k - 1) + [v % 128 + 128]
  }

  /** The encoding of v. */
  function Encoded(v: U64): (s: seq<Byte>)
    ensures |s| == VarintLength(v)
  {
    if v < 0x100_0000_0000_0000 then Groups(v / 128, VarintLength(v) - 1) + [v % 128]
    else Groups(v / 256, 8) + [v % 256]
  }

  /** Continue decoding at byte i, with `acc` read so far. */
  function DecodeFrom(s: seq<Byte>, i: nat, acc: nat): (r: Result<Read>)
    requires i <= |s| && i <= 8 && acc < Pow128(i)
    ensures r.Ok? ==> i < r.value.size <= |s|
    decreases 8 - i
  {
    if i == |s| then Err(BufferTooShort)
    else if i == 8 then
      assert Pow128(8) == 0x100_0000_0000_0000;
      Ok(Read(acc * 256 + s[8], 9))
    else
      var next := acc * 128 + s[i] % 128;
      if s[i] < 128 then
        SmallPower(i + 1);
        Ok(Read(next, i + 1))
      else DecodeFrom(s, i + 1, next)
  }

  lemma SmallPower(k: nat)
    requires k <= 8
    ensures Pow128(k) <= 0x100_0000_0000_0000
  {
    assert Pow128(1) == 128 && Pow128(2) == 128 * 128 && Pow128(3) == 128 * 128 * 128;
    assert Pow128(4) == 0x1000_0000 && Pow128(5) == 0x8_0000_0000 && Pow128(6) == 0x400_0000_0000;
    assert Pow128(7) == 0x2_0000_0000_0000 && Pow128(8) == 0x100_0000_0000_0000;
  }

  method DecodeVarint(s: seq<Byte>) returns (r: Result<Read>)
    ensures r == DecodeFrom(s, 0, 0)
  {
    var result: nat, i := 0, 0;
    while i < |s| && i < 9
      invariant i <= |s| && i <= 8 && result < Pow128(i)
      invariant DecodeFrom(s, 0, 0) == DecodeFrom(s, i, result)
      decreases 9 - i
    {
      if i == 8 {
        SmallPower(8);
        return Ok(Read(result * 256 + s[8], 9));
      }
      result := result * 128 + s[i] % 128;
      if s[i] < 128 {
        SmallPower(i + 1);
        return Ok(Read(result, i + 1));
      }
      i := i + 1;
    }
    r := Err(BufferTooShort);
  }

  /** Groups with continuation bits decode to the number they came from. */
  lemma {:induction false} DecodeGroups(s: seq<Byte>, v: nat, k: nat)
    requires k <= |s| && k <= 8 && s[..k] == Groups(v, k) && v < Pow128(k)
    ensures DecodeFrom(s, 0, 0) == DecodeFrom(s, k, v)
    decreases k
  {
    hide DecodeFrom;
    if k > 0 {
      var init := Groups(v / 128, k - 1);
      assert s[..k] == init + [v % 128 + 128];
      assert s[..k - 1] == s[..k][..k - 1];
      assert s[k - 1] == s[..k][k - 1];
      assert v / 128 < Pow128(k - 1);
      DecodeGroups(s, v / 128, k - 1);
      DecodeStep(s, v, k - 1);
    }
  }

  lemma DecodeStep(s: seq<Byte>, v: nat, k: nat)
    requires k < 8 && k < |s| && s[k] == v % 128 + 128 && v / 128 < Pow128(k) && v < Pow128(k + 1)
    ensures DecodeFrom(s, k, v / 128) == DecodeFrom(s, k + 1, v)
  {
    assert s[k] % 128 == v % 128 by {
      AddBase(v % 128);
    }
  }

  lemma AddBase(d: nat)
    requires d < 128
    ensures (d + 128) % 128 == d
  {
  }

  /** The byte that ends a number: the first without a continuation bit, or the ninth. */
  lemma DecodeLast(s: seq<Byte>, k: nat, v: U64)
    requires k < |s| && k <= 8
    requires if k == 8 then v / 256 < Pow128(8) && s[8] == v % 256 else v / 128 < Pow128(k) && s[k] == v % 128
    ensures DecodeFrom(s, k, if k == 8 then v / 256 else v / 128) == Ok(Read(v, k + 1))
  {
    assert v == v / 256 * 256 + v % 256 && v == v / 128 * 128 + v % 128;
    assert v % 128 % 128 == v % 128;
  }

  lemma LengthBound(v: U64)
    requires v < 0x100_0000_0000_0000
    ensures v / 128 < Pow128(VarintLength(v) - 1)
  {
    assert Pow128(1) == 128 && Pow128(2) == 128 * 128 && Pow128(3) == 128 * 128 * 128;
    assert Pow128(4) == 0x1000_0000 && Pow128(5) == 0x8_0000_0000 && Pow128(6) == 0x400_0000_0000;
    assert Pow128(7) == 0x2_0000_0000_0000;
  }

  /** Decoding undoes encoding, whatever bytes follow. */
  lemma VarintRoundTrip(v: U64, rest: seq<Byte>)
    ensures DecodeFrom(Encoded(v) + rest, 0, 0) == Ok(Read(v, VarintLength(v)))
  {
    hide DecodeFrom;
    var s := Encoded(v) + rest;
    var k := VarintLength(v) - 1;
    if v < 0x100_0000_0000_0000 {
      LengthBound(v);
      assert s[..k] == Groups(v / 128, k) && s[k] == v % 128;
      DecodeGroups(s, v / 128, k);
      DecodeLast(s, k, v);
    } else {
      assert Pow128(8) == 0x100_0000_0000_0000 by {
        assert Pow128(4) == 0x1000_0000;
      }
      assert s[..8] == Groups(v / 256, 8) && s[8] == v % 256;
      DecodeGroups(s, v / 256, 8);
      DecodeLast(s, 8, v);
    }
  }

  // ---- The bytes ----

  /** Seven bits a byte, most significant first. */
  function SevenBits(s: seq<Byte>): nat {
    if s == [] then 0 else SevenBits(s[..|s| - 1]) * 128 + s[|s| - 1] % 128
  }

  predicate AllContinue(s: seq<Byte>) {
    forall i :: 0 <= i < |s| ==> s[i] >= 128
  }

  lemma {:induction false} GroupsAre(v: nat, k: nat)
    requires v < Pow128(k)
    ensures SevenBits(Groups(v, k)) == v && AllContinue(Groups(v, k))
    decreases k
  {
    if k > 0 {
      GroupsAre(v / 128, k - 1);
      var s := Groups(v, k);
      assert s[..k - 1] == Groups(v / 128, k - 1);
      AddBase(v % 128);
      assert v == v / 128 * 128 + v % 128;
    }
  }

  /**
    The encoding: below 2^56 the fewest bytes that hold the number at seven bits each, all but the last
    with the top bit set; from there on eight such bytes and a ninth with eight bits.
   */
  lemma EncodedIs(v: U64)
    ensures
      var s := Encoded(v);
      var n := |s|;
      && 1 <= n <= 9 && AllContinue(s[..n - 1]) && (n > 1 ==> v >= Pow128(n - 1))
      && (n < 9 ==> v < Pow128(n) && s[n - 1] < 128 && SevenBits(s) == v)
      && (n == 9 ==> SevenBits(s[..8]) * 256 + s[8] == v)
  {
    hide SevenBits, Groups;
    Powers128();
    var s := Encoded(v);
    var n := |s|;
    if v < 0x100_0000_0000_0000 {
      LengthBound(v);
      GroupsAre(v / 128, n - 1);
      assert s[..n - 1] == Groups(v / 128, n - 1);
      LastBits(s, v);
    } else {
      GroupsAre(v / 256, 8);
      assert s[..8] == Groups(v / 256, 8);
    }
  }

  lemma LastBits(s: seq<Byte>, v: nat)
    requires s != [] && SevenBits(s[..|s| - 1]) == v / 128 && s[|s| - 1] == v % 128
    ensures SevenBits(s) == v
  {
  }

  lemma Powers128()
    ensures Pow128(1) == 0x80 && Pow128(2) == 0x4000 && Pow128(3) == 0x20_0000 && Pow128(4) == 0x1000_0000
    ensures Pow128(5) == 0x8_0000_0000 && Pow128(6) == 0x400_0000_0000 && Pow128(7) == 0x2_0000_0000_0000 && Pow128(8) == 0x100_0000_0000_0000
  {
    assert Pow128(1) == 128 && Pow128(2) == 128 * 128 && Pow128(3) == 128 * 128 * 128;
    assert Pow128(4) == 0x1000_0000 && Pow128(5) == 0x8_0000_0000 && Pow128(6) == 0x400_0000_0000;
  }

  // ---- Encoding into a buffer ----

  lemma {:induction false} GroupAt(v: nat, k: nat, i: nat)
    requires i < k
    ensures Groups(v, k)[i] == Shifted(v, k - 1 - i) % 128 + 128
    decreases k
  {
    if i < k - 1 {
      GroupAt(v / 128, k - 1, i);
    }
  }

  lemma {:induction false} ShiftedStep(v: nat, k: nat)
    ensures Shifted(v, k + 1) == Shifted(v, k) / 128
    decreases k
  {
    if k > 0 {
      ShiftedStep(v / 128, k - 1);
    }
  }

  /** The number of groups until nothing is left is the encoded length. */
  lemma ShiftedLength(v: U64, n: nat)
    requires 0x80 <= v < 0x100_0000_0000_0000 && 1 <= n && Shifted(v, n - 1) > 0 && Shifted(v, n) == 0
    ensures n == VarintLength(v)
  {
    var k := VarintLength(v);
    ShiftedAt(v, k);
    if n < k {
      ShiftedMono(v, n, k - 1);
    } else if n > k {
      ShiftedMono(v, k, n - 1);
    }
  }

  lemma {:induction false} ShiftedMono(v: nat, i: nat, j: nat)
    requires i <= j
    ensures Shifted(v, j) <= Shifted(v, i)
    decreases j
  {
    if i < j {
      ShiftedMono(v, i, j - 1);
      ShiftedStep(v, j - 1);
    }
  }

  lemma ShiftedAt(v: U64, k: nat)
    requires k == VarintLength(v) && 0x80 <= v < 0x100_0000_0000_0000
    ensures Shifted(v, k) == 0 && Shifted(v, k - 1) > 0
  {
    FirstShifts(v);
    assert Shifted(v, 1) == v / 128 && Shifted(v, 2) == Shifted(v, 1) / 128 && Shifted(v, 3) == Shifted(v, 2) / 128;
    assert Shifted(v, 4) == Shifted(v, 3) / 128 && Shifted(v, 5) == Shifted(v, 4) / 128 && Shifted(v, 6) == Shifted(v, 5) / 128;
    assert Shifted(v, 7) == Shifted(v, 6) / 128 && Shifted(v, 8) == Shifted(v, 7) / 128;
  }

  /** The eight first shifts. */
  lemma FirstShifts(v: nat)
    ensures Shifted(v, 0) == v && forall k: nat :: k < 8 ==> Shifted(v, k + 1) == Shifted(v, k) / 128
  {
    forall k: nat | k < 8 ensures Shifted(v, k + 1) == Shifted(v, k) / 128 {
      ShiftedStep(v, k);
    }
  }

  method EncodeVarint(value: U64, buf: array<Byte>) returns (r: Result<nat>)
    modifies buf
    ensures buf.Length < 9 ==> r == Err(BufferTooShort) && buf[..] == old(buf[..])
    ensures buf.Length >= 9 ==> r == Ok(VarintLength(value)) && buf[..VarintLength(value)] == Encoded(value)
    ensures buf.Length >= 9 ==> buf[VarintLength(value)..] == old(buf[VarintLength(value)..])
  {
    if buf.Length < 9 {
      return Err(BufferTooShort);
    }
    if value <= 0x7F {
      buf[0] := value;
      return Ok(1);
    }
    if value >= 0x100_0000_0000_0000 {
      EncodeNine(value, buf);
      return Ok(9);
    }
    var tmp := new Byte[8](_ => 0);
    var v, n := value, 0;
    while v > 0
      invariant n <= 8 && v == Shifted(value, n) && (n > 0 ==> Shifted(value, n - 1) > 0)
      invariant forall j :: 0 <= j < n ==> tmp[j] == Shifted(value, j) % 128
      invariant buf[..] == old(buf[..])
    {
      if n == 8 {
        Exhausted(value);
      }
      tmp[n] := v % 128;
      ShiftedStep(value, n);
      v := v / 128;
      n := n + 1;
    }
    ShiftedLength(value, n);
    var i := 0;
    while i < n
      invariant i <= n && forall j :: 0 <= j < n ==> tmp[j] == Shifted(value, j) % 128
      invariant forall j :: 0 <= j < i ==> buf[j] == Shifted(value, n - 1 - j) % 128 + if j + 1 < n then 128 else 0
      invariant forall j :: i <= j < buf.Length ==> buf[j] == old(buf[j])
    {
      buf[i] := tmp[n - 1 - i] + if i + 1 < n then 128 else 0;
      i := i + 1;
    }
    forall j | 0 <= j < n ensures buf[j] == Encoded(value)[j] {
      if j + 1 < n {
        GroupAt(value / 128, n - 1, j);
      }
    }
    r := Ok(n);
  }

  lemma Exhausted(v: U64)
    requires v < 0x100_0000_0000_0000
    ensures Shifted(v, 8) == 0
  {
    FirstShifts(v);
    assert Shifted(v, 1) == v / 128 && Shifted(v, 2) == v / 128 / 128 && Shifted(v, 3) < 0x8_0000_0000;
    assert Shifted(v, 4) < 0x1000_0000 && Shifted(v, 5) < 0x20_0000 && Shifted(v, 6) < 0x4000;
    assert Shifted(v, 7) < 0x80;
  }

  method EncodeNine(value: U64, buf: array<Byte>)
    requires buf.Length >= 9 && value >= 0x100_0000_0000_0000
    modifies buf
    ensures buf[..9] == Encoded(value) && buf[9..] == old(buf[9..])
  {
    buf[8] := value % 256;
    var remaining := value / 256;
    var i := 8;
    while i > 0
      invariant 0 <= i <= 8 && remaining == Shifted(value / 256, 8 - i)
      invariant forall j :: i <= j < 8 ==> buf[j] == Shifted(value / 256, 7 - j) % 128 + 128
      invariant forall j :: 8 <= j < buf.Length ==> buf[j] == if j == 8 then value % 256 else old(buf[j])
    {
      i := i - 1;
      buf[i] := remaining % 128 + 128;
      ShiftedStep(value / 256, 7 - i);
      remaining := remaining / 128;
    }
    forall j | 0 <= j < 8 ensures buf[j] == Encoded(value)[j] {
      GroupAt(value / 256, 8, j);
    }
  }
}
