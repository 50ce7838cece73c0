/** The catalog's variable-length integers: 7 bits per byte, low bits first, bit 8 set on every
    byte but the last; a negative number ends with an extra zero byte. */
module Varint {
  import opened Bytes

  // ----- what the encoders write

  function EncodeU64(v: nat): (enc: seq<byte>)
    ensures |enc| >= 1
  {
    if v < 128 then [v] else [128 + v % 128] + EncodeU64(v / 128)
  }

  /** Magnitude bytes of a signed number; `neg` adds the zero end marker. */
  function EncodeMagnitude(d: nat, neg: bool): (enc: seq<byte>)
    ensures |enc| >= 1
  {
    if d < 128 then
      if neg then [128 + d, 0] else [d]
    else
      [128 + d % 128] + EncodeMagnitude(d / 128, neg)
  }

  function EncodeI64(v: int): (enc: seq<byte>)
    ensures |enc| >= 1
  {
    EncodeMagnitude(if v < 0 then -v else v, v < 0)
  }

  // ----- what the decoders read

  /** Index of the first of the next `limit` bytes that has bit 8 clear. */
  function EndMarker(s: seq<byte>, limit: nat): (k: Option<nat>)
    ensures k.Some? ==> k.value < limit && k.value < |s| && s[k.value] < 128
  {
    if limit == 0 || s == [] then None
    else if s[0] < 128 then Some(0)
    else match EndMarker(s[1..], limit - 1) case None => None case Some(k) => Some(k + 1)
  }

  /** The number whose base-128 digits, lowest first, are the low seven bits of the bytes. */
  function Groups(s: seq<byte>): (v: nat)
  {
    if s == [] then 0 else s[0] % 128 + 128 * Groups(s[1..])
  }

  /** Reads one unsigned varint of at most ten bytes: the value modulo 2^64 and the bytes after it. */
  function DecodeU64(s: seq<byte>): (r: Result<(nat, seq<byte>)>)
    ensures r.Ok? ==> r.value.0 < TWO_64 && |r.value.1| < |s|
  {
    match EndMarker(s, 10)
    case None => Err("missing end marker")
    case Some(k) => Ok((Wrap64(Groups(s[..k + 1])), s[k + 1..]))
  }

  /** `v | t << (7 * i)` on a `u64` when `v` holds the `i` lower groups: no bit is shared, so the
      bitwise or is a sum; bits shifted out are lost. At index 10 the shift amount 70 wraps to 6. */
  function OrShifted(v: nat, t: nat, i: nat): (r: nat)
    requires v < TWO_64 && t < 128 && i <= 10 && (i <= 9 ==> v < Pow128(i))
    ensures r < TWO_64
  {
    if i <= 9 then
      GroupBound(i, t);
      v + Wrap64(t * Pow128(i))
    else
      OrAtSix(v, t)
  }

  function OrAtSix(v: nat, t: nat): (r: nat)
    requires v < TWO_64 && t < 128
    ensures r < TWO_64
  {
    ((v as bv64) | ((t as bv64) << 6)) as int
  }

  /** Reads one signed varint of at most eleven bytes. A zero end marker means negative. */
  function DecodeI64(s: seq<byte>): (r: Result<(int, seq<byte>)>)
    ensures r.Ok? ==> -TWO_63 <= r.value.0 < TWO_63 && |r.value.1| < |s|
  {
    match EndMarker(s, 11)
    case None => Err("missing end marker")
    case Some(k) =>
      var v := Wrap64(Groups(s[..k]));
      var n := if s[k] == 0 then (if v == 0 then 0 else TWO_64 - v)
               else if k <= 9 then Wrap64(Groups(s[..k + 1]))
               else OrAtSix(v, s[k]);
      Ok((ToI64(n), s[k + 1..]))
  }

  // ----- powers of 128

  function Pow128(n: nat): (p: nat)
    ensures p > 0
  {
    if n == 0 then 1 else 128 * Pow128(n - 1)
  }

  lemma {:induction false} Pow128Monotone(a: nat, b: nat)
    requires a <= b
    ensures Pow128(a) <= Pow128(b)
    decreases b - a
  {
    if a < b { Pow128Monotone(a, b - 1); }
  }

  lemma Pow128Step(n: nat)
    requires n >= 1
    ensures Pow128(n) == 128 * Pow128(n - 1)
    ensures n == 1 ==> Pow128(n) == 128
  {
  }

  lemma Pow128Nine()
    ensures Pow128(9) == TWO_63 && Pow128(10) == 128 * TWO_63
  {
    assert Pow128(3) == 128 * 128 * 128;
    assert Pow128(6) == 128 * 128 * 128 * Pow128(3);
    assert Pow128(9) == 128 * 128 * 128 * Pow128(6);
  }

  /** Shifting by 63 keeps one bit. */
  lemma ShiftTop(t: nat)
    ensures Wrap64(t * TWO_63) == if t % 2 == 0 then 0 else TWO_63
  {
    assert t == t / 2 * 2 + t % 2;
    assert t * TWO_63 == t / 2 * 0x1_0000_0000_0000_0000 + t % 2 * 0x8000_0000_0000_0000;
  }

  /** Adding the group at index `i` to the lower ones stays below the next power, or below 2^64. */
  lemma GroupBound(i: nat, t: nat)
    requires i <= 9 && t < 128
    ensures Pow128(i) <= TWO_63
    ensures i < 9 ==> t * Pow128(i) + Pow128(i) <= Pow128(i + 1) <= TWO_63
    ensures Wrap64(t * Pow128(i)) + Pow128(i) <= TWO_64
  {
    Pow128Nine();
    Pow128Monotone(i, 9);
    var p := Pow128(i);
    if i < 9 {
      Pow128Monotone(i + 1, 9);
      assert t * p + p <= 128 * p;
    } else {
      ShiftTop(t);
    }
  }

  lemma {:induction false} GroupsAppend(s: seq<byte>, t: byte)
    ensures Groups(s + [t]) == Groups(s) + (t % 128) * Pow128(|s|)
    ensures Groups(s) < Pow128(|s|)
  {
    if s == [] {
      assert [t][1..] == [];
    } else {
      assert (s + [t])[1..] == s[1..] + [t];
      GroupsAppend(s[1..], t);
      assert 128 * ((t % 128) * Pow128(|s| - 1)) == (t % 128) * (128 * Pow128(|s| - 1));
    }
  }

  lemma {:induction false} EndMarkerMore(s: seq<byte>, limit: nat)
    requires EndMarker(s, limit).Some?
    ensures EndMarker(s, limit + 1) == EndMarker(s, limit)
  {
    if s[0] >= 128 { EndMarkerMore(s[1..], limit - 1); }
  }

  // ----- round trips

  lemma {:induction false} EndMarkerStays(s: seq<byte>, t: seq<byte>, limit: nat)
    requires EndMarker(s, limit).Some?
    ensures EndMarker(s + t, limit) == EndMarker(s, limit)
    decreases |s|
  {
    if s[0] >= 128 {
      assert (s + t)[1..] == s[1..] + t;
      EndMarkerStays(s[1..], t, limit - 1);
    }
  }

  /** What follows a number plays no part in reading it. */
  lemma DecodeStays(s: seq<byte>, t: seq<byte>)
    ensures DecodeU64(s).Ok? ==> DecodeU64(s + t) == Ok((DecodeU64(s).value.0, DecodeU64(s).value.1 + t))
    ensures DecodeI64(s).Ok? ==> DecodeI64(s + t) == Ok((DecodeI64(s).value.0, DecodeI64(s).value.1 + t))
  {
    hide EndMarker, Groups, OrAtSix;
    if EndMarker(s, 10).Some? {
      EndMarkerStays(s, t, 10);
      SliceStays(s, t, EndMarker(s, 10).value + 1);
    }
    if EndMarker(s, 11).Some? {
      EndMarkerStays(s, t, 11);
      SliceStays(s, t, EndMarker(s, 11).value);
      SliceStays(s, t, EndMarker(s, 11).value + 1);
    }
  }

  lemma SliceStays(s: seq<byte>, t: seq<byte>, n: nat)
    requires n <= |s|
    ensures (s + t)[..n] == s[..n] && (s + t)[n..] == s[n..] + t
  {
  }

  lemma {:induction false} U64Shape(v: nat, limit: nat, rest: seq<byte>)
    requires limit >= 1 && v < Pow128(limit)
    ensures EndMarker(EncodeU64(v) + rest, limit) == Some(|EncodeU64(v)| - 1)
    ensures Groups(EncodeU64(v)) == v
  {
    hide Pow128;
    Pow128Step(limit);
    if v >= 128 {
      assert (EncodeU64(v) + rest)[1..] == EncodeU64(v / 128) + rest;
      U64Shape(v / 128, limit - 1, rest);
    } else {
      assert [v][1..] == [];
    }
  }

  /** Decoding an encoding returns the value and exactly the bytes that followed it. */
  lemma U64RoundTrip(v: nat, rest: seq<byte>)
    requires v < TWO_64
    ensures DecodeU64(EncodeU64(v) + rest) == Ok((v, rest))
  {
    hide Groups, EndMarker, EncodeU64, Pow128;
    Pow128Nine();
    U64Shape(v, 10, rest);
    var enc := EncodeU64(v);
    assert (enc + rest)[..|enc|] == enc;
    assert (enc + rest)[|enc|..] == rest;
  }

  lemma {:induction false} NegativeShape(d: nat, limit: nat, rest: seq<byte>)
    requires limit >= 1 && d < Pow128(limit)
    ensures var enc := EncodeMagnitude(d, true);
            EndMarker(enc + rest, limit + 1) == Some(|enc| - 1)
            && enc[|enc| - 1] == 0 && Groups(enc[..|enc| - 1]) == d
  {
    hide Pow128;
    var enc := EncodeMagnitude(d, true);
    Pow128Step(limit);
    if d >= 128 {
      var low := EncodeMagnitude(d / 128, true);
      assert (enc + rest)[1..] == low + rest;
      assert enc[..|enc| - 1][1..] == low[..|low| - 1];
      NegativeShape(d / 128, limit - 1, rest);
    } else {
      assert (enc + rest)[1..] == [0] + rest;
      assert enc[..1] == [128 + d] && [128 + d][1..] == [];
    }
  }

  lemma {:induction false} UnsignedIsMagnitude(d: nat)
    ensures EncodeU64(d) == EncodeMagnitude(d, false)
    ensures d > 0 ==> EncodeU64(d)[|EncodeU64(d)| - 1] != 0
  {
    if d >= 128 { UnsignedIsMagnitude(d / 128); }
  }

  /** Reading an unsigned encoding with the signed decoder reinterprets the 64 bits; the number
      itself survives exactly when it is below 2^63. */
  lemma I64ReadsU64(v: nat, rest: seq<byte>)
    requires v < TWO_64
    ensures DecodeI64(EncodeU64(v) + rest) == Ok((ToI64(v), rest))
    ensures ToI64(v) == v <==> v < TWO_63
  {
    hide EndMarker, EncodeMagnitude, Pow128, OrAtSix;
    Pow128Nine();
    var enc := EncodeU64(v);
    var s := enc + rest;
    U64Shape(v, 10, rest);
    EndMarkerMore(s, 10);
    UnsignedIsMagnitude(v);
    assert s[..|enc|] == enc && s[|enc|..] == rest;
    assert s[|enc| - 1] == enc[|enc| - 1];
    if v == 0 {
      assert s[..0] == [];
    }
  }

  /** The signed codec round-trips on the whole of `i64`, the minimum included. */
  lemma I64RoundTrip(v: int, rest: seq<byte>)
    requires -TWO_63 <= v < TWO_63
    ensures DecodeI64(EncodeI64(v) + rest) == Ok((v, rest))
  {
    hide Groups, EndMarker, EncodeMagnitude, EncodeU64, Pow128, OrAtSix;
    if v >= 0 {
      UnsignedIsMagnitude(v);
      I64ReadsU64(v, rest);
    } else {
      Pow128Nine();
      NegativeShape(-v, 10, rest);
      var enc := EncodeI64(v);
      assert (enc + rest)[..|enc| - 1] == enc[..|enc| - 1];
      assert (enc + rest)[|enc|..] == rest;
    }
  }

  // ----- the loops

  method WriteU64(v: nat) returns (enc: seq<byte>)
    ensures enc == EncodeU64(v)
  {
    enc := [];
    var d := v;
    while d >= 128
      invariant enc + EncodeU64(d) == EncodeU64(v)
    {
      enc := enc + [128 + d % 128];
      d := d / 128;
    }
    enc := enc + [d];
  }

  method WriteI64(v: int) returns (enc: seq<byte>)
    requires -TWO_63 <= v < TWO_63
    ensures enc == EncodeI64(v)
  {
    enc := [];
    var d := if v < 0 then -1 * (v + 1) + 1 else v;
    while d >= 128
      invariant d >= 0
      invariant enc + EncodeMagnitude(d, v < 0) == EncodeI64(v)
    {
      enc := enc + [128 + d % 128];
      d := d / 128;
    }
    enc := enc + (if v < 0 then [128 + d, 0] else [d]);
  }

  /** The decoders' state before the byte at index `i`: `i` continuation bytes seen. */
  ghost predicate Decoding(s: seq<byte>, limit: nat, i: nat, v: nat)
  {
    && i <= |s| && i <= limit
    && v == Wrap64(Groups(s[..i])) && (i <= 9 ==> v < Pow128(i))
    && EndMarker(s, limit) == (match EndMarker(s[i..], limit - i) case None => None case Some(k) => Some(i + k))
  }

  lemma DecodeInit(s: seq<byte>)
    ensures Decoding(s, 10, 0, 0) && Decoding(s, 11, 0, 0)
  {
    assert s[..0] == [] && s[0..] == s;
  }

  lemma DecodeValueStep(s: seq<byte>, i: nat, v: nat)
    requires i < |s| && i <= 9 && v == Wrap64(Groups(s[..i]))
    ensures v == Groups(s[..i]) < Pow128(i)
    ensures OrShifted(v, s[i] % 128, i) == Wrap64(Groups(s[..i + 1]))
    ensures i < 9 ==> OrShifted(v, s[i] % 128, i) < Pow128(i + 1)
  {
    hide Groups, OrAtSix;
    var t := s[i] % 128;
    assert s[..i + 1] == s[..i] + [s[i]];
    GroupsAppend(s[..i], s[i]);
    GroupBound(i, t);
    if i == 9 {
      Pow128Nine();
      ShiftTop(t);
    }
  }

  /** One loop turn: what is or-ed in, and that a continuation byte keeps the loop's state. */
  lemma DecodeStep(s: seq<byte>, limit: nat, i: nat, v: nat)
    requires Decoding(s, limit, i, v) && i < limit && i < |s| && i <= 9
    ensures OrShifted(v, s[i] % 128, i) == Wrap64(Groups(s[..i + 1]))
    ensures s[i] >= 128 ==> Decoding(s, limit, i + 1, OrShifted(v, s[i] - 128, i))
    ensures s[i] < 128 ==> EndMarker(s, limit) == Some(i)
  {
    hide Groups, Pow128, OrShifted;
    DecodeValueStep(s, i, v);
    assert s[i..][1..] == s[i + 1..];
    assert s[i] >= 128 ==> s[i] % 128 == s[i] - 128;
  }

  /** The eleventh byte of a signed varint. */
  lemma DecodeLast(s: seq<byte>, v: nat)
    requires Decoding(s, 11, 10, v) && 10 < |s|
    ensures EndMarker(s, 11) == if s[10] < 128 then Some(10) else None
    ensures s[10] < 128 ==> OrShifted(v, s[10], 10) == OrAtSix(v, s[10])
  {
    hide Groups, Pow128, OrAtSix;
  }

  method ReadU64(s: seq<byte>) returns (r: Result<(nat, seq<byte>)>)
    ensures r.Ok? == DecodeU64(s).Ok? && (r.Ok? ==> r == DecodeU64(s))
  {
    hide Groups, EndMarker, OrShifted, Pow128;
    var v, i := 0, 0;
    DecodeInit(s);
    while i < 10
      invariant Decoding(s, 10, i, v)
    {
      if i == |s| { return Err("unexpected end of file"); }
      DecodeStep(s, 10, i, v);
      var t := s[i];
      if t < 128 {
        v := OrShifted(v, t, i);
        return Ok((v, s[i + 1..]));
      }
      v := OrShifted(v, t - 128, i);
      i := i + 1;
    }
    return Err("missing end marker");
  }

  method ReadI64(s: seq<byte>) returns (r: Result<(int, seq<byte>)>)
    ensures r.Ok? == DecodeI64(s).Ok? && (r.Ok? ==> r == DecodeI64(s))
  {
    hide Groups, EndMarker, OrShifted, Pow128, OrAtSix;
    var v, i := 0, 0;
    DecodeInit(s);
    while i < 11
      invariant Decoding(s, 11, i, v)
    {
      if i == |s| { return Err("unexpected end of file"); }
      if i <= 9 { DecodeStep(s, 11, i, v); } else { DecodeLast(s, v); }
      var t := s[i];
      if t == 0 {
        return Ok((if v == 0 then 0 else ToI64(TWO_64 - v), s[i + 1..]));
      } else if t < 128 {
        v := OrShifted(v, t, i);
        return Ok((ToI64(v), s[i + 1..]));
      } else if i == 10 {
        return Err("missing end marker");
      }
      v := OrShifted(v, t - 128, i);
      i := i + 1;
    }
    return Err("missing end marker");
  }
}
