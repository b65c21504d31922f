/** The content-defined chunker: a streaming loop and the chunking it computes. */
module FastCdc {
  import opened Words

  newtype Byte = x: int | 0 <= x < 256
  type Bytes = seq<Byte>

  /** Go's int on a 64-bit platform. */
  type GoInt = x: int | -0x8000_0000_0000_0000 <= x < 0x8000_0000_0000_0000

  /** Any table of 256 words will do: no property below looks at its entries. */
  type GearTable = t: seq<Word> | |t| == 256 witness seq<Word>(256, _ => 0)

  datatype Config = Config(minSize: GoInt, avgSize: GoInt, maxSize: GoInt) {
    predicate Valid() {
      minSize > 0 && avgSize > 0 && maxSize > 0 && minSize <= avgSize <= maxSize
    }
  }

  datatype Chunking = Chunking(cfg: Config, gear: GearTable)

  // ---------------------------------------------------------------- cut decision

  function AvgBits(avgSize: nat): (r: nat)
    ensures r >= 4
  {
    var bits := BitLen(avgSize) - 1;
    if bits < 4 then 4 else bits
  }

  function SmallMask(avgSize: nat): nat {
    Pow2(AvgBits(avgSize)) - 1
  }

  function LargeMask(avgSize: nat): nat {
    Pow2(AvgBits(avgSize) + 1) - 1
  }

  predicate ShouldCut(cfg: Config, size: nat, fingerprint: Word)
    requires cfg.Valid()
  {
    if size < cfg.minSize then false
    else if size >= cfg.maxSize then true
    else if size < cfg.avgSize then And(fingerprint, LargeMask(cfg.avgSize)) == 0
    else And(fingerprint, SmallMask(cfg.avgSize)) == 0
  }

  function Roll(gear: GearTable, fingerprint: Word, b: Byte): Word {
    Wrap(Wrap(2 * fingerprint) + gear[b as int])
  }

  function Fingerprint(gear: GearTable, s: Bytes): Word {
    if s == [] then 0 else Roll(gear, Fingerprint(gear, s[..|s| - 1]), s[|s| - 1])
  }

  // ---------------------------------------------------------------- chunking as a function of content

  /** The loop closes the current chunk right after the last byte of s. */
  predicate CutsAt(c: Chunking, s: Bytes)
    requires c.cfg.Valid()
  {
    s != [] && ShouldCut(c.cfg, |s|, Fingerprint(c.gear, s))
  }

  /** No cut falls strictly inside s. */
  ghost predicate Uncut(c: Chunking, s: Bytes)
    requires c.cfg.Valid()
  {
    forall k | 0 < k < |s| :: !CutsAt(c, s[..k])
  }

  function NextCut(c: Chunking, s: Bytes, n: nat): (r: nat)
    requires c.cfg.Valid() && 1 <= n <= |s|
    ensures n <= r <= |s|
    ensures r < |s| ==> CutsAt(c, s[..r])
    ensures forall k | n <= k < r :: !CutsAt(c, s[..k])
    decreases |s| - n
  {
    if n == |s| || CutsAt(c, s[..n]) then n else NextCut(c, s, n + 1)
  }

  function SplitBytes(c: Chunking, s: Bytes): seq<Bytes>
    requires c.cfg.Valid()
    decreases |s|
  {
    if s == [] then []
    else
      var n := NextCut(c, s, 1);
      [s[..n]] + SplitBytes(c, s[n..])
  }

  function Concat(parts: seq<Bytes>): Bytes {
    if parts == [] then [] else parts[0] + Concat(parts[1..])
  }

  /** What a chunk sequence must look like, with no reference to how it is found. */
  ghost predicate IsChunking(c: Chunking, parts: seq<Bytes>)
    requires c.cfg.Valid()
  {
    && (forall i | 0 <= i < |parts| :: parts[i] != [] && Uncut(c, parts[i]))
    && (forall i | 0 <= i < |parts| - 1 :: CutsAt(c, parts[i]))
  }

  lemma {:induction false} ConcatAppend(a: seq<Bytes>, b: seq<Bytes>)
    ensures Concat(a + b) == Concat(a) + Concat(b)
  {
    if a == [] {
      assert a + b == b;
    } else {
      assert (a + b)[0] == a[0] && (a + b)[1..] == a[1..] + b;
      ConcatAppend(a[1..], b);
    }
  }

  /** A chunk followed by anything is split off first, provided it ends at a cut or at the end. */
  lemma SplitFirst(c: Chunking, chunk: Bytes, rest: Bytes)
    requires c.cfg.Valid() && chunk != [] && Uncut(c, chunk)
    requires rest == [] || CutsAt(c, chunk)
    ensures SplitBytes(c, chunk + rest) == [chunk] + SplitBytes(c, rest)
  {
    var s := chunk + rest;
    var n := NextCut(c, s, 1);
    assert forall k | 0 <= k <= |chunk| :: s[..k] == chunk[..k];
    assert s[..|chunk|] == chunk && s[|chunk|..] == rest;
    assert forall k | 0 < k < |chunk| :: !CutsAt(c, s[..k]);
  }

  lemma SplitHead(c: Chunking, s: Bytes)
    requires c.cfg.Valid() && s != []
    ensures var chunk := SplitBytes(c, s)[0];
            && chunk != [] && Uncut(c, chunk) && (|chunk| < |s| ==> CutsAt(c, chunk))
            && s == chunk + s[|chunk|..]
            && SplitBytes(c, s)[1..] == SplitBytes(c, s[|chunk|..])
  {
    var n := NextCut(c, s, 1);
    assert forall k | 0 <= k <= n :: s[..n][..k] == s[..k];
  }

  lemma {:induction false} SplitIsChunking(c: Chunking, s: Bytes)
    requires c.cfg.Valid()
    ensures IsChunking(c, SplitBytes(c, s)) && Concat(SplitBytes(c, s)) == s
    decreases |s|
  {
    if s != [] {
      SplitHead(c, s);
      var parts := SplitBytes(c, s);
      var rest := s[|parts[0]|..];
      SplitIsChunking(c, rest);
      assert forall i | 1 <= i < |parts| :: parts[i] == parts[1..][i - 1];
      assert rest == [] ==> |parts| == 1;
    }
  }

  lemma {:induction false} ChunkingIsSplit(c: Chunking, parts: seq<Bytes>)
    requires c.cfg.Valid() && IsChunking(c, parts)
    ensures parts == SplitBytes(c, Concat(parts))
  {
    if parts != [] {
      assert forall i | 0 <= i < |parts| - 1 :: parts[1..][i] == parts[i + 1];
      ChunkingIsSplit(c, parts[1..]);
      assert |parts| == 1 ==> parts[1..] == [];
      SplitFirst(c, parts[0], Concat(parts[1..]));
    }
  }

  /** SplitBytes is the one and only chunking of its input. */
  lemma SplitCharacterised(c: Chunking, s: Bytes, parts: seq<Bytes>)
    requires c.cfg.Valid()
    ensures parts == SplitBytes(c, s) <==> IsChunking(c, parts) && Concat(parts) == s
  {
    SplitIsChunking(c, s);
    if IsChunking(c, parts) {
      ChunkingIsSplit(c, parts);
    }
  }

  /** Every chunk is within MaxSize, every chunk but the last reaches MinSize, and nothing is lost. */
  lemma SplitSizes(c: Chunking, s: Bytes)
    requires c.cfg.Valid()
    ensures Concat(SplitBytes(c, s)) == s
    ensures forall i | 0 <= i < |SplitBytes(c, s)| :: 0 < |SplitBytes(c, s)[i]| <= c.cfg.maxSize
    ensures forall i | 0 <= i < |SplitBytes(c, s)| - 1 :: c.cfg.minSize <= |SplitBytes(c, s)[i]|
  {
    var parts := SplitBytes(c, s);
    SplitIsChunking(c, s);
    forall i | 0 <= i < |parts|
      ensures 0 < |parts[i]| <= c.cfg.maxSize
    {
      assert |parts[i]| >= c.cfg.maxSize ==> CutsAt(c, parts[i][..c.cfg.maxSize]);
    }
  }

  // ---------------------------------------------------------------- resynchronisation

  ghost predicate IsCutPoint(c: Chunking, s: Bytes, at: nat)
    requires c.cfg.Valid()
  {
    exists k :: 0 <= k <= |SplitBytes(c, s)| && |Concat(SplitBytes(c, s)[..k])| == at
  }

  /** Splitting distributes over a concatenation exactly when the seam is a cut point. */
  lemma Resynchronise(c: Chunking, p: Bytes, s: Bytes)
    requires c.cfg.Valid()
    ensures IsCutPoint(c, p + s, |p|) <==> SplitBytes(c, p + s) == SplitBytes(c, p) + SplitBytes(c, s)
  {
    var parts := SplitBytes(c, p + s);
    if parts == SplitBytes(c, p) + SplitBytes(c, s) {
      assert parts[..|SplitBytes(c, p)|] == SplitBytes(c, p);
      SplitIsChunking(c, p);
    }
    if IsCutPoint(c, p + s, |p|) {
      var k :| 0 <= k <= |parts| && |Concat(parts[..k])| == |p|;
      SplitAtSeam(c, p, s, k);
    }
  }

  lemma SplitAtSeam(c: Chunking, p: Bytes, s: Bytes, k: nat)
    requires c.cfg.Valid() && k <= |SplitBytes(c, p + s)|
    requires |Concat(SplitBytes(c, p + s)[..k])| == |p|
    ensures SplitBytes(c, p + s)[..k] == SplitBytes(c, p) && SplitBytes(c, p + s)[k..] == SplitBytes(c, s)
    ensures SplitBytes(c, p + s) == SplitBytes(c, p) + SplitBytes(c, s)
  {
    hide SplitBytes;
    var parts := SplitBytes(c, p + s);
    SplitIsChunking(c, p + s);
    var x, y := parts[..k], parts[k..];
    assert parts == x + y;
    ConcatAppend(x, y);
    assert Concat(x) == (p + s)[..|p|] == p;
    assert Concat(y) == (p + s)[|p|..] == s;
    ChunkingIsSplit(c, x);
    ChunkingIsSplit(c, y);
  }

  /** Two files that both cut where a common suffix starts share every chunk of that suffix. */
  lemma SharedSuffixSharesChunks(c: Chunking, p: Bytes, q: Bytes, s: Bytes)
    requires c.cfg.Valid()
    requires IsCutPoint(c, p + s, |p|) && IsCutPoint(c, q + s, |q|)
    ensures exists x, y :: SplitBytes(c, p + s) == x + SplitBytes(c, s) && SplitBytes(c, q + s) == y + SplitBytes(c, s)
                           && Concat(x) == p && Concat(y) == q
  {
    Resynchronise(c, p, s);
    Resynchronise(c, q, s);
    SplitSizes(c, p);
    SplitSizes(c, q);
  }

  /** Appending data never disturbs a chunk that was followed by another one. */
  lemma {:induction false} AppendKeepsClosedChunks(c: Chunking, s: Bytes, more: Bytes)
    requires c.cfg.Valid() && s != []
    ensures var closed := SplitBytes(c, s)[..|SplitBytes(c, s)| - 1];
            closed <= SplitBytes(c, s + more)
    decreases |s|
  {
    SplitHead(c, s);
    var chunk := SplitBytes(c, s)[0];
    var rest := s[|chunk|..];
    if rest != [] {
      AppendKeepsClosedChunks(c, rest, more);
      assert s + more == chunk + (rest + more);
      SplitFirst(c, chunk, rest + more);
    }
  }

  // ---------------------------------------------------------------- content-defined cutting

  lemma {:induction false} FingerprintWindow(gear: GearTable, a: Bytes, b: Bytes, k: nat)
    requires k <= WORD_BITS && k <= |a| && k <= |b|
    requires a[|a| - k..] == b[|b| - k..]
    ensures Fingerprint(gear, a) % Pow2(k) == Fingerprint(gear, b) % Pow2(k)
    decreases k
  {
    if k > 0 {
      var a', b' := a[..|a| - 1], b[..|b| - 1];
      var last := a[|a| - 1];
      assert last == a[|a| - k..][k - 1] == b[|b| - k..][k - 1] == b[|b| - 1];
      assert a'[|a'| - (k - 1)..] == a[|a| - k..][..k - 1];
      assert b'[|b'| - (k - 1)..] == b[|b| - k..][..k - 1];
      FingerprintWindow(gear, a', b', k - 1);
      RollWindow(gear, Fingerprint(gear, a'), Fingerprint(gear, b'), last, k);
    }
  }

  lemma RollWindow(gear: GearTable, f: Word, g: Word, b: Byte, k: nat)
    requires 0 < k <= WORD_BITS && f % Pow2(k - 1) == g % Pow2(k - 1)
    ensures Roll(gear, f, b) % Pow2(k) == Roll(gear, g, b) % Pow2(k)
  {
    RollLowBits(gear, f, b, k);
    RollLowBits(gear, g, b, k);
  }

  /** After one step the low k bits depend only on the low k - 1 bits before it. */
  lemma RollLowBits(gear: GearTable, f: Word, b: Byte, k: nat)
    requires 0 < k <= WORD_BITS
    ensures Roll(gear, f, b) % Pow2(k) == (2 * (f % Pow2(k - 1)) + gear[b as int]) % Pow2(k)
  {
    var m, h, w := Pow2(k), Pow2(k - 1), gear[b as int];
    calc {
      Roll(gear, f, b) % m;
      { WrapKeepsLowBits(Wrap(2 * f) + w, k); }
      (Wrap(2 * f) + w) % m;
      { WrapKeepsLowBits(2 * f, k); AddModCongruent(Wrap(2 * f), 2 * f, w, m); }
      (2 * f + w) % m;
      { DoubleModHalf(f, h); AddModCongruent(2 * f, 2 * (f % h), w, m); }
      (2 * (f % h) + w) % m;
    }
  }

  lemma DoubleModHalf(f: nat, h: nat)
    requires h > 0
    ensures (2 * f) % (2 * h) == (2 * (f % h)) % (2 * h)
  {
    HalfMod(2 * f, h);
    HalfMod(2 * (f % h), h);
    ModIs(f % h, h, 0, f % h);
  }

  lemma AddModCongruent(x: nat, y: nat, w: nat, m: nat)
    requires m > 0 && x % m == y % m
    ensures (x + w) % m == (y + w) % m
  {
    var q := (y + w) / m - y / m + x / m;
    var r := (y + w) % m;
    assert y == (y / m) * m + y % m && x == (x / m) * m + x % m;
    assert y + w == ((y + w) / m) * m + r;
    assert q * m == ((y + w) / m) * m - (y / m) * m + (x / m) * m;
    ModIs(x + w, m, q, r);
  }

  predicate SameSizeClass(cfg: Config, n: nat, m: nat) {
    && (n < cfg.minSize <==> m < cfg.minSize)
    && (n >= cfg.maxSize <==> m >= cfg.maxSize)
    && (n < cfg.avgSize <==> m < cfg.avgSize)
  }

  lemma {:induction false} MaskBitsFit(avgSize: GoInt)
    requires avgSize > 0
    ensures AvgBits(avgSize) + 1 < WORD_BITS
  {
    BitLenBrackets(avgSize);
    WordSizeIsPow2();
    assert Pow2(64) == 2 * Pow2(63);
    if BitLen(avgSize) >= 64 {
      Pow2Monotone(63, BitLen(avgSize) - 1);
    }
  }

  /**
   * Content-defined cutting: in one size class the decision is a function of the last
   * AvgBits + 1 bytes of the current chunk, and from AvgSize on of the last AvgBits bytes.
   */
  lemma CutDependsOnWindow(c: Chunking, a: Bytes, b: Bytes, k: nat)
    requires c.cfg.Valid() && SameSizeClass(c.cfg, |a|, |b|)
    requires k == if |a| < c.cfg.avgSize then AvgBits(c.cfg.avgSize) + 1 else AvgBits(c.cfg.avgSize)
    requires k <= |a| && k <= |b| && a[|a| - k..] == b[|b| - k..]
    ensures CutsAt(c, a) <==> CutsAt(c, b)
  {
    MaskBitsFit(c.cfg.avgSize);
    FingerprintWindow(c.gear, a, b, k);
    AndLowMask(Fingerprint(c.gear, a), k);
    AndLowMask(Fingerprint(c.gear, b), k);
  }

  /** The rolling sum without any wrap-around: each byte doubles what came before. */
  ghost function Sum(gear: GearTable, s: Bytes): nat {
    if s == [] then 0 else 2 * Sum(gear, s[..|s| - 1]) + gear[s[|s| - 1] as int]
  }

  /** Wrapping at every step is the same as wrapping once at the end. */
  lemma WrapLate(x: nat, w: nat)
    ensures Wrap(Wrap(2 * (x % WORD_SIZE)) + w) == (2 * x + w) % WORD_SIZE
  {
    var r := x % WORD_SIZE;
    ModIs(2 * x, WORD_SIZE, 2 * (x / WORD_SIZE) + (2 * r) / WORD_SIZE, (2 * r) % WORD_SIZE);
    AddModCongruent(2 * r, 2 * x, w, WORD_SIZE);
    AddModCongruent(Wrap(2 * r), 2 * r, w, WORD_SIZE);
  }

  lemma {:induction false} FingerprintIsSum(gear: GearTable, s: Bytes)
    ensures Fingerprint(gear, s) == Sum(gear, s) % WORD_SIZE
  {
    if s != [] {
      hide Wrap;
      FingerprintIsSum(gear, s[..|s| - 1]);
      WrapLate(Sum(gear, s[..|s| - 1]), gear[s[|s| - 1] as int]);
    } else {
      assert Fingerprint(gear, s) == 0 && Sum(gear, s) == 0;
    }
  }

  lemma AvgBitsAre(avgSize: nat, k: nat)
    requires k >= 4 && avgSize < Pow2(k + 1) && (k == 4 || Pow2(k) <= avgSize)
    ensures AvgBits(avgSize) == k
  {
    if avgSize > 0 {
      hide Pow2;
      var bits := BitLen(avgSize);
      BitLenBrackets(avgSize);
      if bits - 1 > k {
        Pow2Monotone(k + 1, bits - 1);
      }
      if k > 4 && bits < k + 1 {
        Pow2Monotone(bits, k);
      }
    }
  }

  /**
   * Exactly which chunks are closed: at MaxSize always, below MinSize never, and in between when
   * the sum is divisible by 2^(k+1), from AvgSize on by 2^k, where 2^k is the power of two at or
   * below AvgSize, and at least 16.
   */
  lemma CutsExactly(c: Chunking, s: Bytes, k: nat)
    requires c.cfg.Valid() && k >= 4
    requires c.cfg.avgSize < Pow2(k + 1) && (k == 4 || Pow2(k) <= c.cfg.avgSize)
    ensures CutsAt(c, s) <==>
            || |s| >= c.cfg.maxSize
            || (|s| >= c.cfg.minSize && Sum(c.gear, s) % Pow2(if |s| < c.cfg.avgSize then k + 1 else k) == 0)
  {
    hide Pow2, And, AvgBits, Fingerprint, Sum;
    var bits := if |s| < c.cfg.avgSize then k + 1 else k;
    AvgBitsAre(c.cfg.avgSize, k);
    MaskBitsFit(c.cfg.avgSize);
    FingerprintIsSum(c.gear, s);
    AndLowMask(Fingerprint(c.gear, s), bits);
    WrapKeepsLowBits(Sum(c.gear, s), bits);
  }

  // ---------------------------------------------------------------- the streaming loop

  datatype ReadError = NoError | EndOfFile | Broken

  /** One answer of the reader: some bytes, possibly together with an error. */
  datatype Read = Read(data: Bytes, err: ReadError)

  datatype Chunk = Chunk(index: nat, bytes: Bytes, size: nat)

  datatype Outcome = Done | BadConfig | ReadFailed | Cancelled

  /** The bytes a reader hands out up to and including its first error; a script that runs out is at its end. */
  function Delivered(script: seq<Read>): Bytes {
    if script == [] then []
    else if script[0].err != NoError then script[0].data
    else script[0].data + Delivered(script[1..])
  }

  predicate Breaks(script: seq<Read>) {
    script != [] && (script[0].err == Broken || (script[0].err == NoError && Breaks(script[1..])))
  }

  function DataOf(script: seq<Read>): seq<Bytes> {
    seq(|script|, i requires 0 <= i < |script| => script[i].data)
  }

  /** The bytes that come together with the first error still count, and its kind decides. */
  lemma {:induction false} DeliveredUpToTheFirstError(script: seq<Read>, n: nat)
    requires n <= |script| && forall i | 0 <= i < n :: script[i].err == NoError
    ensures n == |script| ==> Delivered(script) == Concat(DataOf(script)) && !Breaks(script)
    ensures n < |script| && script[n].err != NoError ==>
              Delivered(script) == Concat(DataOf(script[..n + 1])) && (Breaks(script) <==> script[n].err == Broken)
    decreases n
  {
    if n == 0 {
      if script != [] {
        assert DataOf(script[..1]) == [script[0].data] && Concat([script[0].data]) == script[0].data + Concat([]);
      }
    } else {
      DeliveredUpToTheFirstError(script[1..], n - 1);
      assert DataOf(script) == [script[0].data] + DataOf(script[1..]);
      if n < |script| {
        assert script[..n + 1][1..] == script[1..][..n];
        assert DataOf(script[..n + 1]) == [script[0].data] + DataOf(script[1..][..n]);
      }
    }
  }

  function Numbered(parts: seq<Bytes>): seq<Chunk> {
    seq(|parts|, i requires 0 <= i < |parts| => Chunk(i, parts[i], |parts[i]|))
  }

  /** Between two bytes: the chunks in done are out, the loop holds buf, and rest is still to come. */
  ghost predicate Streaming(c: Chunking, data: Bytes, done: seq<Bytes>, buf: Bytes, fp: Word, rest: Bytes)
    requires c.cfg.Valid()
  {
    && Uncut(c, buf) && !CutsAt(c, buf)
    && fp == Fingerprint(c.gear, buf)
    && SplitBytes(c, data) == done + SplitBytes(c, buf + rest)
  }

  lemma UncutGrows(c: Chunking, buf: Bytes, b: Byte)
    requires c.cfg.Valid() && Uncut(c, buf) && !CutsAt(c, buf)
    ensures Uncut(c, buf + [b])
    ensures Fingerprint(c.gear, buf + [b]) == Roll(c.gear, Fingerprint(c.gear, buf), b)
  {
    var next := buf + [b];
    assert next[..|buf|] == buf;
    assert forall k | 0 < k < |buf| :: next[..k] == buf[..k];
  }

  lemma StreamByte(c: Chunking, data: Bytes, done: seq<Bytes>, buf: Bytes, fp: Word, b: Byte, rest: Bytes)
    requires c.cfg.Valid() && Streaming(c, data, done, buf, fp, [b] + rest)
    ensures var fp' := Roll(c.gear, fp, b);
            if ShouldCut(c.cfg, |buf| + 1, fp') then Streaming(c, data, done + [buf + [b]], [], 0, rest)
            else Streaming(c, data, done, buf + [b], fp', rest)
  {
    var next := buf + [b];
    UncutGrows(c, buf, b);
    assert buf + ([b] + rest) == next + rest;
    if CutsAt(c, next) {
      SplitFirst(c, next, rest);
      assert [] + rest == rest;
      assert done + ([next] + SplitBytes(c, rest)) == done + [next] + SplitBytes(c, rest);
    }
  }

  lemma NothingBuffered(c: Chunking, data: Bytes)
    requires c.cfg.Valid()
    ensures Streaming(c, data, [], [], 0, data)
  {
    assert [] + data == data;
  }

  lemma StreamEnds(c: Chunking, data: Bytes, done: seq<Bytes>, buf: Bytes, fp: Word)
    requires c.cfg.Valid() && Streaming(c, data, done, buf, fp, [])
    ensures SplitBytes(c, data) == if buf == [] then done else done + [buf]
  {
    assert buf + [] == buf;
    if buf != [] {
      SplitFirst(c, buf, []);
    }
  }

  lemma NumberedAppend(done: seq<Bytes>, chunk: Bytes)
    ensures Numbered(done + [chunk]) == Numbered(done) + [Chunk(|done|, chunk, |chunk|)]
  {
  }

  /** The inner loop: the bytes of one read go through the rolling fingerprint. */
  method Consume(c: Chunking, bytes: Bytes, start: seq<Chunk>, buf: Bytes, fp: Word, polled: nat, cancelled: nat -> bool,
                 ghost data: Bytes, ghost done: seq<Bytes>, ghost rest: Bytes)
    returns (out: seq<Chunk>, chunkBuf: Bytes, fingerprint: Word, polls: nat, stopped: bool, ghost done': seq<Bytes>)
    requires c.cfg.Valid() && start == Numbered(done)
    requires Streaming(c, data, done, buf, fp, bytes + rest)
    ensures out == Numbered(done') && polls >= polled
    ensures !stopped ==> Streaming(c, data, done', chunkBuf, fingerprint, rest)
    ensures stopped ==> done' <= SplitBytes(c, data) && exists n: nat :: cancelled(n)
  {
    out, chunkBuf, fingerprint, polls, stopped, done' := start, buf, fp, polled, false, done;
    var j := 0;
    assert bytes[0..] == bytes;
    while j < |bytes|
      invariant 0 <= j <= |bytes| && polls >= polled && !stopped
      invariant out == Numbered(done')
      invariant Streaming(c, data, done', chunkBuf, fingerprint, bytes[j..] + rest)
    {
      var b := bytes[j];
      assert bytes[j..] + rest == [b] + (bytes[j + 1..] + rest);
      StreamByte(c, data, done', chunkBuf, fingerprint, b, bytes[j + 1..] + rest);
      chunkBuf, fingerprint, j := chunkBuf + [b], Roll(c.gear, fingerprint, b), j + 1;
      if ShouldCut(c.cfg, |chunkBuf|, fingerprint) {
        polls := polls + 1;
        if cancelled(polls) {
          stopped := true;
          return;
        }
        NumberedAppend(done', chunkBuf);
        out, done' := out + [Chunk(|out|, chunkBuf, |chunkBuf|)], done' + [chunkBuf];
        chunkBuf, fingerprint := [], 0;
      }
    }
    assert bytes[j..] + rest == rest;
  }

  lemma DeliveredStep(script: seq<Read>, i: nat)
    requires i < |script|
    ensures script[i..][0] == script[i] && script[i..][1..] == script[i + 1..]
    ensures Delivered(script[i..]) == script[i].data + (if script[i].err == NoError then Delivered(script[i + 1..]) else [])
    ensures Breaks(script[i..]) <==> script[i].err == Broken || (script[i].err == NoError && Breaks(script[i + 1..]))
  {
  }

  function BytesOf(chunks: seq<Chunk>): seq<Bytes> {
    seq(|chunks|, i requires 0 <= i < |chunks| => chunks[i].bytes)
  }

  /** What a whole stream hands on: consecutive indexes, true sizes, and all the bytes in order. */
  lemma ChunksSpellTheStream(c: Chunking, s: Bytes, out: seq<Chunk>)
    requires c.cfg.Valid() && out == Numbered(SplitBytes(c, s))
    ensures forall i | 0 <= i < |out| :: out[i].index == i && out[i].size == |out[i].bytes| > 0
    ensures Concat(BytesOf(out)) == s
  {
    SplitSizes(c, s);
    assert BytesOf(out) == SplitBytes(c, s);
  }

  /**
   * Split. The reader and the cancellation signal are scripts: script holds the reader's
   * successive answers and cancelled(n) is the answer of the n-th look at the context. Whatever
   * way the bytes arrive, what goes out is the numbered chunking of their concatenation, or a
   * prefix of it when the reader breaks or the caller gives up.
   */
  method Split(c: Chunking, script: seq<Read>, cancelled: nat -> bool) returns (out: seq<Chunk>, outcome: Outcome)
    ensures outcome == BadConfig <==> !(0 < c.cfg.minSize <= c.cfg.avgSize <= c.cfg.maxSize)
    ensures outcome == BadConfig ==> out == []
    ensures c.cfg.Valid() ==> out <= Numbered(SplitBytes(c, Delivered(script)))
    ensures outcome == Done ==> out == Numbered(SplitBytes(c, Delivered(script))) && !Breaks(script)
    ensures outcome == ReadFailed ==> Breaks(script)
    ensures outcome == Cancelled ==> exists n: nat :: cancelled(n)
  {
    hide SplitBytes, Fingerprint, Uncut, CutsAt;
    out := [];
    if !c.cfg.Valid() {
      return out, BadConfig;
    }
    ghost var data := Delivered(script);
    ghost var done: seq<Bytes> := [];
    var chunkBuf: Bytes, fingerprint: Word, polls: nat, stopped := [], 0, 0, false;
    var i, open := 0, true;
    NothingBuffered(c, data);
    assert script[0..] == script;
    while open
      invariant 0 <= i <= |script| && out == Numbered(done)
      invariant Streaming(c, data, done, chunkBuf, fingerprint, if open then Delivered(script[i..]) else [])
      invariant Breaks(script) <==> open && Breaks(script[i..])
      decreases |script| - i, open
    {
      var read := if i < |script| then script[i] else Read([], EndOfFile);
      ghost var rest := if i < |script| && read.err == NoError then Delivered(script[i + 1..]) else [];
      if i < |script| {
        DeliveredStep(script, i);
      }
      assert Delivered(script[i..]) == read.data + rest;
      out, chunkBuf, fingerprint, polls, stopped, done :=
        Consume(c, read.data, out, chunkBuf, fingerprint, polls, cancelled, data, done, rest);
      if stopped {
        return out, Cancelled;
      }
      if read.err == Broken {
        return out, ReadFailed;
      }
      if read.err == EndOfFile {
        open := false;
      } else {
        polls := polls + 1;
        if cancelled(polls) {
          return out, Cancelled;
        }
        i := i + 1;
      }
    }
    StreamEnds(c, data, done, chunkBuf, fingerprint);
    if chunkBuf != [] {
      if cancelled(polls + 1) {
        return out, Cancelled;
      }
      NumberedAppend(done, chunkBuf);
      out := out + [Chunk(|out|, chunkBuf, |chunkBuf|)];
    }
    outcome := Done;
  }
}
