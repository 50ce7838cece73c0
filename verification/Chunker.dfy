/** The sliding-window chunker and its variant with suggested boundaries. */
module Chunker {
  import opened Bytes
  import opened Buzhash
  import opened Words

  // ----- where a chunk ends, as a function of its bytes

  datatype Config = Config(min: nat, max: nat, mask: bv32, minimum: bv32, table: Table)

  predicate PowerOfTwo(n: nat)
  {
    n == 1 || (n > 1 && n % 2 == 0 && PowerOfTwo(n / 2))
  }

  /** The low 32 bits of a number. */
  function LowWord(x: nat): bv32
  {
    if x == 0 then 0 else Double(LowWord(x / 2), if x % 2 == 1 then 1 else 0)
  }

  function Threshold(mask: bv32): bv32
  {
    mask - 2
  }

  /** Sizes between a quarter of and four times the average; the mask is cut to 32 bits. */
  function ConfigOf(avg: nat, table: Table): (cfg: Config)
    requires PowerOfTwo(avg)
    ensures cfg.min == avg / 4 <= cfg.max == 4 * avg
  {
    var mask := LowWord(2 * avg - 1);
    Config(avg / 4, avg * 4, mask, Threshold(mask), table)
  }

  predicate HashBreaks(mask: bv32, minimum: bv32, h: bv32)
  {
    AtLeast(And(h, mask), minimum)
  }

  predicate ShallBreak(cfg: Config, size: nat, h: bv32)
  {
    size >= cfg.max || (size >= cfg.min && HashBreaks(cfg.mask, cfg.minimum, h))
  }

  lemma MaskGrows(n: nat)
    requires n > 1 && n % 2 == 0
    ensures LowWord(n - 1) == Double(LowWord(n / 2 - 1), 1)
  {
    hide Double;
    assert (n - 1) / 2 == n / 2 - 1 && (n - 1) % 2 == 1;
  }

  /** Masking with all bits below a power of two is taking the remainder. */
  lemma {:induction false} MaskIsRemainder(n: nat, h: bv32)
    requires PowerOfTwo(n)
    ensures Value(And(h, LowWord(n - 1))) == Value(h) % n
    decreases n
  {
    hide Value, And, Half, Bit, Double;
    if n == 1 {
      AndNone(h);
    } else {
      hide LowWord;
      var m := LowWord(n / 2 - 1);
      MaskGrows(n);
      MaskIsRemainder(n / 2, Half(h));
      AndDouble(h, m);
      HalfValue(And(h, LowWord(n - 1)));
      HalfValue(h);
      Remainder(Value(Half(h)), Value(Bit(h)), n / 2);
    }
  }

  lemma Remainder(q: nat, bit: nat, n: nat)
    requires n > 0 && bit <= 1
    ensures (2 * q + bit) % (2 * n) == 2 * (q % n) + bit
  {
    var k, r := q / n, q % n;
    assert 2 * q + bit == k * (2 * n) + (2 * r + bit);
    UniqueRemainder(2 * q + bit, 2 * n, k, 2 * r + bit);
  }

  lemma UniqueRemainder(a: nat, n: nat, k: nat, r: nat)
    requires r < n && a == k * n + r
    ensures a % n == r
  {
    var d := k - a / n;
    Multiples(d, n);
    assert d * n == a % n - r;
  }

  lemma Multiples(d: int, n: nat)
    ensures d >= 1 ==> d * n >= n
    ensures d <= -1 ==> d * n <= 0 - n
  {
  }

  const TWO_32: int := 0x1_0000_0000

  /** Twice the average, or 2^32 if that is less: the mask and the hash have 32 bits. */
  function Modulus(avg: nat): nat
  {
    if 2 * avg <= TWO_32 then 2 * avg else TWO_32
  }

  lemma {:induction false} PowersDivide(n: nat, m: nat)
    requires PowerOfTwo(n) && PowerOfTwo(m) && n <= m
    ensures m % n == 0
    decreases n
  {
    if n > 1 {
      PowersDivide(n / 2, m / 2);
      var k := (m / 2) / (n / 2);
      assert m / 2 == k * (n / 2);
      assert m == k * n;
      UniqueRemainder(m, n, k, 0);
    }
  }

  lemma {:induction false} PowersMultiply(n: nat, m: nat)
    requires PowerOfTwo(n) && PowerOfTwo(m)
    ensures PowerOfTwo(n * m)
    decreases n
  {
    if n > 1 {
      PowersMultiply(n / 2, m);
      assert n * m == 2 * ((n / 2) * m);
    }
  }

  lemma WordIsPower()
    ensures PowerOfTwo(TWO_32)
  {
    assert PowerOfTwo(2) && PowerOfTwo(4) && PowerOfTwo(16);
    PowersMultiply(16, 16);
    PowersMultiply(0x100, 0x100);
    PowersMultiply(0x1_0000, 0x1_0000);
  }

  lemma LastRemainder(w: nat, n: nat)
    requires w > 0 && n > 0 && w % n == 0
    ensures (w - 1) % n == n - 1
  {
    var k := w / n;
    assert w == k * n;
    assert w - 1 == (k - 1) * n + (n - 1);
    UniqueRemainder(w - 1, n, k - 1, n - 1);
  }

  lemma SmallRemainder(a: nat, n: nat)
    requires a < n
    ensures a % n == a
  {
  }

  lemma TopRemainder(n: nat, w: nat)
    requires PowerOfTwo(n) && PowerOfTwo(w)
    ensures (w - 1) % n == (if n <= w then n else w) - 1
  {
    if n <= w {
      PowersDivide(n, w);
      LastRemainder(w, n);
    } else {
      SmallRemainder(w - 1, n);
    }
  }

  lemma TopOfWord(avg: nat)
    requires PowerOfTwo(avg)
    ensures PowerOfTwo(2 * avg) && (TWO_32 - 1) % (2 * avg) == Modulus(avg) - 1
  {
    WordIsPower();
    TopRemainder(2 * avg, TWO_32);
  }

  lemma MaskValue(avg: nat)
    requires PowerOfTwo(avg)
    ensures Value(LowWord(2 * avg - 1)) == Modulus(avg) - 1
  {
    hide Value, And, LowWord, AllOnes, Modulus;
    TopOfWord(avg);
    assert avg > 0;
    AndAll(LowWord(2 * avg - 1));
    MaskIsRemainder(2 * avg, AllOnes());
  }

  /** One of the next three numbers after the hash is a multiple. */
  predicate NearMultiple(h: nat, n: nat)
    requires n > 0
  {
    (h + 1) % n == 0 || (h + 2) % n == 0 || (h + 3) % n == 0
  }

  lemma NextMultiple(h: nat, n: nat, i: nat)
    requires 1 <= i < n
    ensures (h + i) % n == 0 <==> h % n == n - i
  {
    var k, r := h / n, h % n;
    assert h == k * n + r;
    if r + i < n {
      UniqueRemainder(h + i, n, k, r + i);
    } else {
      assert h + i == (k + 1) * n + (r + i - n);
      UniqueRemainder(h + i, n, k + 1, r + i - n);
    }
  }

  lemma NearTop(h: nat, n: nat)
    requires n >= 4
    ensures h % n >= n - 3 <==> NearMultiple(h, n)
  {
    NextMultiple(h, n, 1);
    NextMultiple(h, n, 2);
    NextMultiple(h, n, 3);
  }

  lemma TooHigh(h: bv32)
    ensures !HashBreaks(LowWord(1), Threshold(LowWord(1)), h)
  {
    assert LowWord(1) == 1;
  }

  lemma ModulusFits(avg: nat)
    requires PowerOfTwo(avg) && avg >= 2
    ensures Modulus(avg) >= 4 && Modulus(avg) % 4 == 0 && PowerOfTwo(2 * avg)
  {
    assert avg % 2 == 0;
  }

  lemma SameRemainder(avg: nat, h: nat)
    requires avg >= 2 && h < TWO_32
    ensures h % (2 * avg) == h % Modulus(avg)
  {
    if 2 * avg > TWO_32 {
      SmallRemainder(h, 2 * avg);
      SmallRemainder(h, TWO_32);
    }
  }

  lemma ThresholdValue(mask: bv32)
    requires Value(mask) % 4 == 3
    ensures Value(Threshold(mask)) == Value(mask) - 2
  {
    hide Value;
    LessTwo(mask);
  }

  lemma BreakValue(avg: nat, h: bv32)
    requires PowerOfTwo(avg) && avg >= 2
    ensures var mask := LowWord(2 * avg - 1);
            HashBreaks(mask, Threshold(mask), h) <==> NearMultiple(Value(h), Modulus(avg))
  {
    hide Value, And, LowWord, AtLeast, NearMultiple, Threshold, Modulus, PowerOfTwo;
    var mask, n := LowWord(2 * avg - 1), Modulus(avg);
    ValueFits(h);
    ModulusFits(avg);
    SameRemainder(avg, Value(h));
    Order(And(h, mask), Threshold(mask));
    MaskValue(avg);
    ThresholdValue(mask);
    MaskIsRemainder(2 * avg, h);
    NearTop(Value(h), n);
  }

  /** The break test: from the minimum on, a chunk ends where one of the next three numbers after the hash
      is a multiple of twice the average; at the maximum it ends in any case. With an average of 1 the
      threshold wraps around and only the maximum ends a chunk; above 2^31 the modulus is 2^32. */
  lemma BreakTest(avg: nat, table: Table, size: nat, h: bv32)
    requires PowerOfTwo(avg)
    ensures Value(ConfigOf(avg, table).mask) == Modulus(avg) - 1
    ensures ShallBreak(ConfigOf(avg, table), size, h)
            <==> size >= 4 * avg || (avg >= 2 && size >= avg / 4 && NearMultiple(Value(h), Modulus(avg)))
  {
    hide HashBreaks, NearMultiple, LowWord, Threshold, Modulus;
    MaskValue(avg);
    if avg == 1 {
      TooHigh(h);
    } else {
      BreakValue(avg, h);
    }
  }

  /** The last 64 bytes, or all of them. */
  function Window(s: seq<byte>): (w: seq<byte>)
  {
    if |s| <= 64 then s else s[|s| - 64..]
  }

  /** Whether a chunk that has grown to `s` ends here: the window is full and the hash of the last
      64 bytes, computed from nothing, asks for a break. The test is first made at byte 65. */
  predicate IsCut(cfg: Config, s: seq<byte>)
  {
    |s| > 64 && ShallBreak(cfg, |s|, Hash(cfg.table, Window(s)))
  }

  ghost predicate NoCut(cfg: Config, s: seq<byte>)
  {
    forall n :: 0 <= n <= |s| ==> !IsCut(cfg, s[..n])
  }

  /** `s` is a chunk: it ends at a boundary and holds none before. */
  ghost predicate IsChunk(cfg: Config, s: seq<byte>)
  {
    s != [] && IsCut(cfg, s) && NoCut(cfg, s[..|s| - 1])
  }

  function CutFrom(cfg: Config, s: seq<byte>, n: nat): (m: nat)
    requires 1 <= n <= |s| + 1
    ensures m == 0 ==> forall k :: n <= k <= |s| ==> !IsCut(cfg, s[..k])
    ensures m > 0 ==> n <= m <= |s| && IsCut(cfg, s[..m]) && forall k :: n <= k < m ==> !IsCut(cfg, s[..k])
    decreases |s| + 1 - n
  {
    if n > |s| then 0 else if IsCut(cfg, s[..n]) then n else CutFrom(cfg, s, n + 1)
  }

  /** Length of the first chunk of `s`, or 0 if no boundary lies in it. */
  function FirstCut(cfg: Config, s: seq<byte>): (m: nat)
    ensures m <= |s|
  {
    CutFrom(cfg, s, 1)
  }

  /** The chunks of a whole input. */
  function Chunks(cfg: Config, s: seq<byte>): (chunks: seq<seq<byte>>)
    decreases |s|
  {
    if s == [] then [] else
    var n := FirstCut(cfg, s);
    if n == 0 then [s] else [s[..n]] + Chunks(cfg, s[n..])
  }

  lemma NoCutIsZero(cfg: Config, s: seq<byte>)
    ensures NoCut(cfg, s) <==> FirstCut(cfg, s) == 0
  {
    hide IsCut;
    assert !IsCut(cfg, s[..0]) by { IsCutLong(cfg, s[..0]); }
  }

  lemma IsCutLong(cfg: Config, s: seq<byte>)
    ensures IsCut(cfg, s) ==> |s| > 64
  {
  }

  /** A boundary is determined by the bytes up to it: what follows does not matter. */
  lemma FirstCutIs(cfg: Config, p: seq<byte>, rest: seq<byte>)
    requires IsChunk(cfg, p)
    ensures FirstCut(cfg, p + rest) == |p|
  {
    hide IsCut;
    var s := p + rest;
    var n := FirstCut(cfg, s);
    assert s[..|p|] == p;
    assert forall k :: 0 <= k < |p| ==> p[..|p| - 1][..k] == s[..k];
  }

  lemma NoCutSnoc(cfg: Config, p: seq<byte>, b: byte)
    requires NoCut(cfg, p) && !IsCut(cfg, p + [b])
    ensures NoCut(cfg, p + [b])
  {
    hide IsCut;
    var s := p + [b];
    assert forall k :: 0 <= k <= |p| ==> s[..k] == p[..k];
    assert s[..|s|] == s;
  }

  lemma ShortNoCut(cfg: Config, s: seq<byte>)
    requires |s| <= 64
    ensures NoCut(cfg, s)
  {
  }

  lemma LongIsCut(cfg: Config, s: seq<byte>)
    ensures |s| > 64 && |s| >= cfg.max ==> IsCut(cfg, s)
  {
    hide Hash;
  }

  /** Bounds: a hash boundary is never below the minimum; it is never above the maximum either,
      provided the maximum exceeds the 64-byte window. */
  lemma CutBounds(cfg: Config, s: seq<byte>)
    requires IsChunk(cfg, s) && cfg.min <= cfg.max
    ensures cfg.min <= |s| && 64 < |s|
    ensures cfg.max > 64 ==> |s| <= cfg.max
  {
    var p := s[..|s| - 1];
    assert p[..|p|] == p;
    LongIsCut(cfg, p);
  }

  lemma NoCutBound(cfg: Config, s: seq<byte>)
    requires NoCut(cfg, s) && cfg.max > 64
    ensures |s| < cfg.max
  {
    assert s[..|s|] == s;
    LongIsCut(cfg, s);
  }

  /** With a maximum of at most 64, that is an average of at most 16, every chunk that is not the
      last one has 65 bytes and breaks the maximum. */
  lemma SmallAverageBreaksMaximum(cfg: Config, s: seq<byte>)
    requires cfg.max <= 64 && |s| >= 65
    ensures FirstCut(cfg, s) == 65 > cfg.max
  {
    var p := s[..65];
    ShortNoCut(cfg, p[..64]);
    FirstCutIs(cfg, p, s[65..]);
    assert p + s[65..] == s;
  }

  lemma AverageAtLeast32(avg: nat, table: Table)
    requires PowerOfTwo(avg)
    ensures ConfigOf(avg, table).max > 64 <==> avg >= 32
  {
    hide ConfigOf;
    assert PowerOfTwo(16) by { assert PowerOfTwo(4); }
    if avg > 16 { PowerGap(avg, 16); }
  }

  lemma {:induction false} PowerGap(n: nat, k: nat)
    requires PowerOfTwo(n) && PowerOfTwo(k) && n > k
    ensures n >= 2 * k
  {
    if k > 1 { PowerGap(n / 2, k / 2); }
  }

  // ----- the chunker

  class ChunkerImpl {
    var h: bv32
    var windowSize: nat
    var chunkSize: nat
    const cfg: Config
    const window: array<byte>
    /** The bytes scanned since the last boundary or reset. */
    ghost var fed: seq<byte>

    constructor (avg: nat, table: Table)
      requires PowerOfTwo(avg)
      ensures Valid() && fed == [] && cfg == ConfigOf(avg, table) && fresh(window)
    {
      h, windowSize, chunkSize := 0, 0, 0;
      cfg := ConfigOf(avg, table);
      window := new byte[64](_ => 0);
      fed := [];
      new;
      HashNone(cfg.table);
      ShortNoCut(cfg, []);
    }

    /** The rolling hash is the direct hash of the last 64 bytes, and the ring holds byte `k` of the
        chunk at index `k % 64`. Nothing is said about ring cells that hold no byte of the chunk. */
    ghost predicate Valid()
      reads this, window
    {
      && window.Length == 64
      && chunkSize == |fed|
      && windowSize == (if |fed| < 64 then |fed| else 64)
      && h == Hash(cfg.table, Window(fed))
      && NoCut(cfg, fed)
      && Ring(fed)
    }

    ghost predicate Ring(s: seq<byte>)
      reads window
      requires window.Length == 64
    {
      forall k :: 0 <= k < |s| && |s| - 64 <= k ==> window[k % 64] == s[k]
    }

    method Reset()
      requires Valid()
      modifies this`h, this`chunkSize, this`windowSize, this`fed
      ensures Valid() && fed == []
    {
      Clear();
    }

    /** Fills the window at the start of a chunk. */
    method Fill(data: seq<byte>) returns (pos: nat)
      requires Valid() && |fed| < 64
      modifies this`h, this`windowSize, this`chunkSize, this`fed, window
      ensures Valid()
      ensures pos <= |data| && fed == old(fed) + data[..pos]
      ensures if |old(fed)| + |data| < 64 then pos == |data| else |fed| == 64
    {
      hide Hash, T, Rot1, Xor, NoCut, Ring;
      RingFlat();
      var need := 64 - windowSize;
      var copyLen := if need < |data| then need else |data|;
      pos := 0;
      ghost var oldFed := fed;
      while pos < copyLen
        invariant pos <= copyLen
        invariant fed == oldFed + data[..pos]
        invariant windowSize == |fed| == |oldFed| + pos
        invariant h == Hash(cfg.table, fed)
        invariant forall k :: 0 <= k < |fed| ==> window[k] == fed[k]
        invariant chunkSize == |oldFed|
      {
        var b := data[pos];
        window[windowSize] := b;
        h := Xor(Rot1(h), T(cfg.table, b));
        HashBack(cfg.table, fed, b);
        assert data[..pos + 1] == data[..pos] + [b];
        fed := fed + [b];
        pos := pos + 1;
        windowSize := windowSize + 1;
      }
      chunkSize := chunkSize + copyLen;
      ShortNoCut(cfg, fed);
      RingFlat();
    }

    /** Scans for the first chunk boundary: 0 if there is none in all bytes fed so far, or its
        position in `data`. After a boundary the chunker stands as after `Reset`. */
    method Scan(data: seq<byte>) returns (k: nat)
      requires Valid()
      modifies this`h, this`windowSize, this`chunkSize, this`fed, window
      ensures Valid()
      ensures k == 0 ==> fed == old(fed) + data
      ensures k > 0 ==> k <= |data| && fed == []
      ensures k > 0 ==> IsChunk(cfg, old(fed) + data[..k])
      ensures FirstCut(cfg, old(fed) + data) == if k == 0 then 0 else |old(fed)| + k
    {
      hide Hash, T, Rot1, Xor, IsCut, FirstCut, Window, NoCut, ShallBreak, Ring;
      var pos := 0;
      ghost var oldFed := fed;
      if windowSize < 64 {
        pos := Fill(data);
        if windowSize < 64 {
          assert data[..pos] == data;
          NoCutIsZero(cfg, fed);
          return 0;
        }
      } else {
        assert fed == oldFed + data[..0];
      }
      while pos < |data|
        invariant pos <= |data| && |fed| >= 64
        invariant Valid() && fed == oldFed + data[..pos]
      {
        ghost var before := fed;
        Roll(data[pos]);
        assert data[..pos + 1] == data[..pos] + [data[pos]];
        pos := pos + 1;
        IsCutIs(cfg, fed, h);
        if ShallBreak(cfg, chunkSize, h) {
          ghost var chunk := fed;
          assert chunk[..|chunk| - 1] == before;
          assert chunk == oldFed + data[..pos];
          FirstCutIs(cfg, fed, data[pos..]);
          assert oldFed + data == fed + data[pos..];
          Clear();
          return pos;
        }
        NoCutSnoc(cfg, before, data[pos - 1]);
      }
      assert data[..pos] == data;
      NoCutIsZero(cfg, fed);
      return 0;
    }

    /** Rolls the window over one byte. */
    method Roll(enter: byte)
      requires Valid() && |fed| >= 64
      modifies this`h, this`chunkSize, this`fed, window
      ensures fed == old(fed) + [enter]
      ensures chunkSize == |fed| && windowSize == 64 && h == Hash(cfg.table, Window(fed))
      ensures window.Length == 64 && Ring(fed)
    {
      hide Hash, T, Rot1, Xor, Window, NoCut;
      ghost var before := fed;
      var idx := chunkSize % 64;
      var leave := window[idx];
      assert (|before| - 64) % 64 == |before| % 64;
      RollWindow(cfg, before, enter);
      h := Xor(Xor(Rot1(h), T(cfg.table, leave)), T(cfg.table, enter));
      chunkSize := chunkSize + 1;
      window[idx] := enter;
      fed := before + [enter];
      RingStep(before, enter);
    }

    /** The reset at a boundary. */
    method Clear()
      requires window.Length == 64
      modifies this`h, this`chunkSize, this`windowSize, this`fed
      ensures Valid() && fed == []
    {
      h, chunkSize, windowSize := 0, 0, 0;
      fed := [];
      HashNone(cfg.table);
      ShortNoCut(cfg, []);
    }

    lemma RingFlat()
      requires window.Length == 64 && |fed| <= 64
      ensures Ring(fed) <==> forall k :: 0 <= k < |fed| ==> window[k] == fed[k]
    {
      assert forall k :: 0 <= k < |fed| ==> k % 64 == k;
    }

    lemma RingStep(before: seq<byte>, b: byte)
      requires window.Length == 64 && |before| >= 64
      requires window[|before| % 64] == b
      requires forall k :: 0 <= k < |before| && |before| - 63 <= k ==> window[k % 64] == before[k]
      ensures Ring(before + [b])
    {
      var s := before + [b];
      forall k | 0 <= k < |s| && |s| - 64 <= k ensures window[k % 64] == s[k] {
        if k < |before| { assert s[k] == before[k]; }
      }
    }
  }

  /** Where a scan may cut a chunk that was `fed` and now sees `data`: at a hash boundary or, if
      that offset was suggested, at any size between the bounds. */
  ghost predicate Boundary(cfg: Config, fed: seq<byte>, data: seq<byte>, k: nat, suggested: bool)
  {
    && 0 < k <= |data|
    && (IsChunk(cfg, fed + data[..k]) || (suggested && cfg.min <= |fed| + k <= cfg.max))
  }

  /** What a scan is given: where the chunk starts in the archive, how much of it was scanned before and
      how much there is with the new data. */
  datatype Extent = Extent(base: nat, pos: nat, total: nat)

  /** A suggestion that is passed over: it lies before the new data, or would make the chunk too small. */
  predicate PassedOver(e: Extent, min: nat, b: nat)
  {
    b < e.base + e.pos || (b <= e.base + e.total && b < e.base + min)
  }

  /** How many suggestions are passed over before one that is not, or before the end. */
  function Skipped(e: Extent, min: nat, list: seq<nat>): (n: nat)
    ensures n <= |list| && (forall i :: 0 <= i < n ==> PassedOver(e, min, list[i]))
    ensures n < |list| ==> !PassedOver(e, min, list[n])
    ensures forall i :: 0 <= i < n ==>
              list[i] < e.base + e.pos || (list[i] <= e.base + e.total && list[i] - e.base < min)
    ensures n < |list| ==>
              list[n] >= e.base + e.pos && (list[n] > e.base + e.total || list[n] - e.base >= min)
  {
    if list != [] && PassedOver(e, min, list[0]) then 1 + Skipped(e, min, list[1..]) else 0
  }

  /** The suggestion that counts lies in the data read so far and keeps the chunk within the maximum; it
      is then used up. */
  predicate InReach(e: Extent, cfg: Config, list: seq<nat>)
  {
    var n := Skipped(e, cfg.min, list);
    n < |list| && list[n] <= e.base + e.total && list[n] <= e.base + cfg.max
  }

  /** It even lies inside the new data, so the chunk ends there. */
  predicate Wins(e: Extent, cfg: Config, list: seq<nat>)
  {
    InReach(e, cfg, list) && list[Skipped(e, cfg.min, list)] > e.base + e.pos
  }

  /** The suggestions from the first one on that is not passed over. */
  function Remaining(e: Extent, min: nat, list: seq<nat>): seq<nat>
  {
    list[Skipped(e, min, list)..]
  }

  lemma RemainingStep(e: Extent, min: nat, list: seq<nat>)
    ensures Remaining(e, min, list)
            == if list != [] && PassedOver(e, min, list[0]) then Remaining(e, min, list[1..]) else list
  {
    hide PassedOver;
  }

  /** The chunker that prefers suggested boundaries. Messages that arrive while a scan runs are
      taken to be in the queue when it starts. */
  class PayloadChunker {
    const chunker: ChunkerImpl
    var currentSuggested: Option<nat>
    var suggestedBoundaries: seq<nat>

    constructor (avg: nat, table: Table)
      requires PowerOfTwo(avg)
      ensures chunker.Valid() && chunker.fed == [] && chunker.cfg == ConfigOf(avg, table)
      ensures Pending() == []
      ensures fresh(chunker) && fresh(chunker.window)
    {
      chunker := new ChunkerImpl(avg, table);
      currentSuggested := None;
      suggestedBoundaries := [];
    }

    /** Offsets suggested and not yet used or dropped, in order. */
    ghost function Pending(): seq<nat>
      reads this
    {
      (if currentSuggested.Some? then [currentSuggested.value] else []) + suggestedBoundaries
    }

    /** Drops suggestions that are passed over, until one that is not or none is current. */
    method PassOver(e: Extent)
      modifies this
      ensures Pending() == Remaining(e, chunker.cfg.min, old(Pending()))
      ensures currentSuggested.Some? <==> Pending() != []
    {
      hide Remaining, PassedOver;
      ghost var min, left := chunker.cfg.min, Remaining(e, chunker.cfg.min, Pending());
      while true
        invariant Remaining(e, min, Pending()) == left
        decreases |suggestedBoundaries|, if currentSuggested.Some? then 1 else 0
      {
        RemainingStep(e, min, Pending());
        if currentSuggested.Some? {
          if !PassedOver(e, chunker.cfg.min, currentSuggested.value) { return; }
          assert Pending()[1..] == suggestedBoundaries;
          currentSuggested := None;
          assert Pending() == suggestedBoundaries;
        } else if suggestedBoundaries == [] {
          return;
        } else {
          ghost var list := Pending();
          currentSuggested := Some(suggestedBoundaries[0]);
          suggestedBoundaries := suggestedBoundaries[1..];
          assert Pending() == list;
        }
      }
    }

    /** Passes over suggestions until one decides; the length to cut off the new data, if it wins. */
    method Decide(e: Extent) returns (len: Option<nat>)
      modifies this
      ensures var list, n := old(Pending()), Skipped(e, chunker.cfg.min, old(Pending()));
              && (if Wins(e, chunker.cfg, list) then len.Some? && e.base + e.pos + len.value == list[n] else len.None?)
              && Pending() == if InReach(e, chunker.cfg, list) then list[n + 1..] else list[n..]
      ensures len.Some? ==> 0 < len.value <= e.total - e.pos && e.base + e.pos + len.value in old(Pending())
      ensures len.Some? ==> chunker.cfg.min <= e.pos + len.value <= chunker.cfg.max
    {
      hide Skipped;
      ghost var list, n := Pending(), Skipped(e, chunker.cfg.min, Pending());
      PassOver(e);
      if currentSuggested.None? { return None; }
      var boundary := currentSuggested.value;
      assert list[n] == list[n..][0] == boundary && list[n..][1..] == list[n + 1..];
      if boundary > e.base + e.total { return None; }
      var chunkSize := boundary - e.base;
      if chunkSize > chunker.cfg.max { return None; }
      currentSuggested := None;
      return if chunkSize == e.pos then None else Some(chunkSize - e.pos);
    }

    /** The first suggestion that is neither past nor too early decides: inside the data and within the
        maximum the chunk ends there, otherwise the first hash boundary ends it. */
    method Scan(data: seq<byte>, base: nat, total: nat) returns (k: nat)
      requires chunker.Valid()
      requires total == |chunker.fed| + |data|
      modifies this, chunker, chunker.window
      ensures chunker.Valid()
      ensures k == 0 ==> chunker.fed == old(chunker.fed) + data
      ensures k > 0 ==> chunker.fed == []
      ensures k > 0 ==>
                Boundary(chunker.cfg, old(chunker.fed), data, k, base + |old(chunker.fed)| + k in old(Pending()))
      ensures var e, list := Extent(base, |old(chunker.fed)|, total), old(Pending());
              var n := Skipped(e, chunker.cfg.min, list);
              && (if Wins(e, chunker.cfg, list) then k > 0 && base + |old(chunker.fed)| + k == list[n]
                  else FirstCut(chunker.cfg, old(chunker.fed) + data) == if k == 0 then 0 else |old(chunker.fed)| + k)
              && Pending() == if InReach(e, chunker.cfg, list) then list[n + 1..] else list[n..]
    {
      hide IsChunk, NoCut, FirstCut, ChunkerImpl.Valid, Skipped, InReach, Wins, PassedOver, Pending;
      var len := Decide(Extent(base, total - |data|, total));
      if len.Some? {
        chunker.Reset();
        return len.value;
      }
      k := chunker.Scan(data);
    }
  }

  lemma RollWindow(cfg: Config, s: seq<byte>, b: byte)
    requires |s| >= 64
    ensures Hash(cfg.table, Window(s + [b]))
            == Xor(Xor(Rot1(Hash(cfg.table, Window(s))), T(cfg.table, s[|s| - 64])), T(cfg.table, b))
  {
    hide Hash, T, Rot1, Xor;
    var w := Window(s);
    assert Window(s + [b]) == w[1..] + [b];
    assert w[0] == s[|s| - 64];
    HashRoll(cfg.table, w, b);
  }

  lemma IsCutIs(cfg: Config, s: seq<byte>, h: bv32)
    requires |s| > 64 && h == Hash(cfg.table, Window(s))
    ensures IsCut(cfg, s) <==> ShallBreak(cfg, |s|, h)
  {
  }
}
