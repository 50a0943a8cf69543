/** Shared value types: bytes, 32-bit integers and an option type. */
module Bytes {
  type byte = b: int | 0 <= b < 256

  const TWO_32 := 0x1_0000_0000

  type u32 = n: int | 0 <= n < TWO_32
  type i32 = n: int | -0x8000_0000 <= n < 0x8000_0000

  datatype Option<+T> = None | Some(value: T)

  /** The two's complement reading of a 32-bit word (`as i32`). */
  function Signed(u: u32): i32 {
    if u < 0x8000_0000 then u else u - TWO_32
  }

  /** The word behind a signed 32-bit value (`as u32`). */
  function Unsigned(v: i32): u32 {
    if v < 0 then v + TWO_32 else v
  }

  /** `n as i32` for a length: keeps the low 32 bits. */
  function AsI32(n: nat): i32 {
    Signed(n % TWO_32)
  }
}

/** The VarInt, string and length-prefix primitives of `src/protocol/varint.rs`. */
module VarInt {
  import opened Bytes

  const MAX_PACKET_BYTES: i32 := 0x1F_FFFF

  datatype VarIntResult = Value(value: i32, consumed: nat) | Incomplete | TooBig

  // ----- reading -----

  /** How many bytes at the front of `s` carry the continuation bit, looking at no more than five. */
  function Continuations(s: seq<byte>, limit: nat := 5): (n: nat)
    ensures n <= limit && n <= |s|
  {
    if limit == 0 || s == [] || s[0] < 128 then 0 else 1 + Continuations(s[1..], limit - 1)
  }

  /** The number whose little-endian base-128 digits are the low seven bits of `s`. */
  function Digits(s: seq<byte>): nat {
    if s == [] then 0 else s[0] % 128 + 128 * Digits(s[1..])
  }

  /**
   * What a VarInt at the front of `s` denotes: the bytes up to and including the first one
   * without a continuation bit are the digits of a 32-bit word, higher bits being shifted out.
   */
  function ReadVarInt(s: seq<byte>): (r: VarIntResult)
    ensures r.Value? ==> 1 <= r.consumed <= 5 && r.consumed <= |s|
  {
    var n := Continuations(s);
    if n == 5 then TooBig
    else if n == |s| then Incomplete
    else Value(Signed(Digits(s[..n + 1]) % TWO_32), n + 1)
  }

  function Pow128(k: nat): (p: nat)
    ensures p > 0
  {
    if k == 0 then 1 else 128 * Pow128(k - 1)
  }

  /** One more byte in the accumulator. */
  lemma AccumulatorStep(buf: seq<byte>, i: nat, result: nat)
    requires i < |buf| && result == Digits(buf[..i]) % TWO_32
    ensures (result + buf[i] % 128 * Pow128(i)) % TWO_32 == Digits(buf[..i + 1]) % TWO_32
  {
    DigitsAppend(buf[..i], buf[i]);
    hide Digits, Pow128;
    assert buf[..i] + [buf[i]] == buf[..i + 1];
    TruncatedSum(Digits(buf[..i]), buf[i] % 128 * Pow128(i));
  }

  /** What the loop has found when it stops. */
  lemma ReadVarIntIs(buf: seq<byte>, i: nat)
    requires i <= |buf| && i <= 5 && forall k :: 0 <= k < i ==> buf[k] >= 128
    ensures i == 5 ==> ReadVarInt(buf) == TooBig
    ensures i == |buf| && i < 5 ==> ReadVarInt(buf) == Incomplete
    ensures i < |buf| && i < 5 && buf[i] < 128 ==> ReadVarInt(buf) == Value(Signed(Digits(buf[..i + 1]) % TWO_32), i + 1)
  {
    if i == 5 || i == |buf| || buf[i] < 128 {
      ContinuationsMeaning(buf, i, 5);
    }
  }

  /** The reading loop of `read_var_int`: one byte at a time into a 32-bit accumulator. */
  method ReadVarIntLoop(buf: seq<byte>) returns (r: VarIntResult)
    ensures r == ReadVarInt(buf)
  {
    hide Digits, Pow128, ReadVarInt, Signed;
    var result, shift, i := 0, 0, 0;
    NoDigits(buf);
    while true
      invariant 0 <= i <= 4 && i <= |buf| && shift == 7 * i && 0 <= result
      invariant result == Digits(buf[..i]) % TWO_32
      invariant forall k :: 0 <= k < i ==> buf[k] >= 128
      decreases 5 - i
    {
      ReadVarIntIs(buf, i);
      if i >= |buf| {
        return Incomplete;
      }
      var b := buf[i];
      AccumulatorStep(buf, i, result);
      result := (result + b % 128 * Pow128(shift / 7)) % TWO_32;
      i := i + 1;
      if b < 128 {
        return Value(Signed(result), i);
      }
      shift := shift + 7;
      if shift >= 35 {
        ReadVarIntIs(buf, i);
        return TooBig;
      }
    }
  }

  lemma NoDigits(buf: seq<byte>)
    ensures Digits(buf[..0]) == 0
  {
  }

  /** Dropping high bits before or after an addition gives the same 32-bit word. */
  lemma TruncatedSum(a: nat, b: nat)
    ensures (a % TWO_32 + b) % TWO_32 == (a + b) % TWO_32
  {
  }

  lemma {:induction false} DigitsAppend(s: seq<byte>, b: byte)
    ensures Digits(s + [b]) == Digits(s) + b % 128 * Pow128(|s|)
  {
    if s == [] {
      assert (s + [b])[1..] == [];
    } else {
      var rest := s[1..];
      assert (s + [b])[1..] == rest + [b];
      DigitsAppend(rest, b);
      hide Digits;
      Spread(b % 128, Pow128(|rest|));
    }
  }

  lemma Spread(d: nat, p: nat)
    ensures 128 * (d * p) == d * (128 * p)
  {
  }

  /** `Continuations` is the length of the longest run of continuation bytes, up to the limit. */
  lemma {:induction false} ContinuationsMeaning(s: seq<byte>, n: nat, limit: nat)
    requires n <= |s| && n <= limit
    requires forall k :: 0 <= k < n ==> s[k] >= 128
    requires n == limit || n == |s| || s[n] < 128
    ensures Continuations(s, limit) == n
  {
    if n > 0 {
      ContinuationsMeaning(s[1..], n - 1, limit - 1);
    }
  }

  /** More input never changes a VarInt that has already been decided, one way or the other. */
  lemma ReadVarIntStable(s: seq<byte>, t: seq<byte>)
    requires ReadVarInt(s) != Incomplete
    ensures ReadVarInt(s + t) == ReadVarInt(s)
  {
    var n := Continuations(s);
    ContinuationsAre(s, 5);
    ContinuationsMeaning(s + t, n, 5);
    if n < 5 {
      assert (s + t)[..n + 1] == s[..n + 1];
    }
  }

  lemma {:induction false} ContinuationsAre(s: seq<byte>, limit: nat)
    ensures var n := Continuations(s, limit);
            && (forall k :: 0 <= k < n ==> s[k] >= 128)
            && (n == limit || n == |s| || s[n] < 128)
  {
    if limit > 0 && s != [] && s[0] >= 128 {
      ContinuationsAre(s[1..], limit - 1);
      var n := Continuations(s, limit);
      forall k | 0 <= k < n ensures s[k] >= 128 {
        if k > 0 { assert s[k] == s[1..][k - 1]; }
      }
    }
  }

  /** A VarInt cut short anywhere is Incomplete, never something else. */
  lemma ReadVarIntPrefix(s: seq<byte>, k: nat)
    requires ReadVarInt(s).Value? && k < ReadVarInt(s).consumed
    ensures ReadVarInt(s[..k]) == Incomplete
  {
    ContinuationsAre(s, 5);
    ContinuationsMeaning(s[..k], k, 5);
  }

  // ----- writing -----

  function WriteUnsigned(v: nat): (s: seq<byte>)
    ensures s != []
  {
    if v < 128 then [v] else [v % 128 + 128] + WriteUnsigned(v / 128)
  }

  function WriteVarInt(value: i32): (s: seq<byte>)
    ensures s != []
  {
    WriteUnsigned(Unsigned(value))
  }

  /** The writing loop of `write_var_int`. */
  method WriteVarIntLoop(out: seq<byte>, value: i32) returns (out': seq<byte>)
    ensures out' == out + WriteVarInt(value)
  {
    out' := out;
    var v: nat := Unsigned(value);
    while true
      invariant out' + WriteUnsigned(v) == out + WriteVarInt(value)
      decreases v
    {
      if v / 128 == 0 {
        out' := out' + [v];
        return;
      }
      assert out' + WriteUnsigned(v) == out' + [v % 128 + 128] + WriteUnsigned(v / 128);
      out' := out' + [v % 128 + 128];
      v := v / 128;
    }
  }

  lemma {:induction false} WrittenDigits(v: nat)
    ensures Digits(WriteUnsigned(v)) == v
  {
    if v >= 128 {
      WrittenDigits(v / 128);
    }
  }

  lemma {:induction false} WrittenShape(v: nat, rest: seq<byte>, limit: nat)
    requires limit > 0 && v < Pow128(limit)
    ensures |WriteUnsigned(v)| <= limit
    ensures Continuations(WriteUnsigned(v) + rest, limit) == |WriteUnsigned(v)| - 1
  {
    if v >= 128 {
      assert v / 128 < Pow128(limit - 1);
      WrittenShape(v / 128, rest, limit - 1);
      assert (WriteUnsigned(v) + rest)[1..] == WriteUnsigned(v / 128) + rest;
    }
  }

  /** Every 32-bit value survives being written and read back, whatever bytes follow it. */
  lemma VarIntRoundTrip(value: i32, rest: seq<byte>)
    ensures ReadVarInt(WriteVarInt(value) + rest) == Value(value, |WriteVarInt(value)|)
    ensures |WriteVarInt(value)| <= 5
  {
    var u := Unsigned(value);
    assert Pow128(5) == 34359738368;
    WrittenShape(u, rest, 5);
    WrittenDigits(u);
    var w := WriteVarInt(value);
    assert (w + rest)[..|w|] == w;
  }

  // ----- strings and length prefixes -----

  datatype StringResult = Text(bytes: seq<byte>, size: nat) | TooLong(length: i32)

  /** `i32::saturating_mul(4)` for a non-negative bound. */
  function TimesFour(maxLength: nat): i32 {
    if 4 * maxLength > 0x7FFF_FFFF then 0x7FFF_FFFF else 4 * maxLength
  }

  function ReadString(s: seq<byte>, maxLength: nat): (r: StringResult)
    ensures r.Text? ==> |r.bytes| <= r.size <= |s| && s[r.size - |r.bytes|..r.size] == r.bytes
  {
    var v := ReadVarInt(s);
    if !v.Value? then TooLong(-1)
    else if v.value < 0 || v.value > TimesFour(maxLength) then TooLong(v.value)
    else if v.consumed + v.value > |s| then TooLong(v.value)
    else Text(s[v.consumed..v.consumed + v.value], v.consumed + v.value)
  }

  function WriteString(text: seq<byte>): seq<byte> {
    WriteVarInt(AsI32(|text|)) + text
  }

  function LengthPrefix(payload: seq<byte>): seq<byte> {
    WriteVarInt(AsI32(|payload|)) + payload
  }

  /** A string within its bound reads back whole, with nothing of what follows. */
  lemma StringRoundTrip(text: seq<byte>, maxLength: nat, rest: seq<byte>)
    requires |text| <= TimesFour(maxLength)
    ensures ReadString(WriteString(text) + rest, maxLength) == Text(text, |WriteString(text)|)
  {
    hide ReadVarInt, WriteVarInt;
    VarIntRoundTrip(|text|, text + rest);
    assert WriteString(text) + rest == WriteVarInt(|text|) + (text + rest);
    var w := WriteVarInt(|text|);
    assert (w + (text + rest))[|w|..|w| + |text|] == text;
  }
}
