/** The arithmetic of the fragmentation loop in `OutConnector::handle`. */
module Fragmentation {
  import opened Wire

  /** Bytes that have to remain for payload data in every fragment. */
  const MIN_DATA_SPACE: uint32 := 5

  function Add32(a: uint32, b: uint32): uint32 {
    if a + b < TWO32 then a + b else a + b - TWO32
  }

  function Sub32(a: uint32, b: uint32): uint32 {
    if a >= b then a - b else a - b + TWO32
  }

  /** Data capacity of the first and of every later fragment. */
  datatype Capacity = Capacity(first: uint32, later: uint32) {
    function At(j: nat): uint32 {
      if j == 0 then first else later
    }

    /** Where fragment j starts when offsets are unbounded. */
    function Offset(j: nat): nat {
      if j == 0 then 0 else Offset(j - 1) + At(j - 1)
    }

    /** The value of the 32-bit `offset` variable after j iterations. */
    function Offset32(j: nat): uint32 {
      if j == 0 then 0 else Add32(Offset32(j - 1), At(j - 1))
    }

    predicate Cuttable(len: nat) {
      len <= first || later > 0
    }

    /** The first index from j on whose fragment would start at or behind the end. */
    function PartsFrom(len: nat, j: nat): (n: nat)
      requires j >= 1 && (later > 0 || Offset(j) >= len)
      ensures n >= j && Offset(n) >= len
      ensures forall i | j <= i < n :: Offset(i) < len
      decreases len - Offset(j)
    {
      if Offset(j) >= len then j else PartsFrom(len, j + 1)
    }

    function PartCount(len: nat): (n: nat)
      requires Cuttable(len)
      ensures n >= 1 && Offset(n) >= len
      ensures forall i | 1 <= i < n :: Offset(i) < len
    {
      assert Offset(1) == first;
      PartsFrom(len, 1)
    }

    /** A single fragment, or an end offset and a number of fragments that fit 32 bits. */
    predicate NoWrap(len: nat) {
      len <= first || (later > 0 && Offset(PartCount(len)) < TWO32 && PartCount(len) < TWO32)
    }
  }

  /** The size limit of a fragment and the encoded sizes of the two kinds of header. */
  datatype Budget = Budget(maxSize: uint32, first: uint32, later: uint32) {
    function HeaderSize(j: nat): uint32 {
      if j == 0 then first else later
    }

    /** The size check of the loop: no room for a minimal amount of data. */
    predicate TooBig(j: nat) {
      HeaderSize(j) >= Sub32(maxSize, MIN_DATA_SPACE)
    }

    function Room(): Capacity {
      Capacity(Sub32(maxSize, first), Sub32(maxSize, later))
    }

    /** Some fragment of a payload of this length fails the size check. */
    predicate Rejects(len: nat) {
      TooBig(0) || (len > Room().first && TooBig(1))
    }
  }

  /** `std::string::substr`, for positions inside the string. */
  function Substr(p: string, pos: nat, n: nat): string
    requires pos <= |p|
  {
    p[pos..Min(pos + n, |p|)]
  }

  function Clip(p: string, pos: nat): nat {
    Min(pos, |p|)
  }

  /** The first k parts, when fragment j starts at offset j. */
  function Slices(p: string, c: Capacity, k: nat): (s: seq<string>)
    ensures |s| == k
  {
    if k == 0 then [] else Slices(p, c, k - 1) + [Substr(p, Clip(p, c.Offset(k - 1)), c.At(k - 1))]
  }

  /** The intended parts of a payload. */
  function Cut(p: string, c: Capacity): seq<string>
    requires c.Cuttable(|p|)
  {
    Slices(p, c, c.PartCount(|p|))
  }

  // ---------------------------------------------------------------- unbounded offsets

  lemma {:induction false} OffsetMonotone(c: Capacity, i: nat, j: nat)
    requires i <= j
    ensures c.Offset(i) <= c.Offset(j)
    decreases j
  {
    if i == j {
    } else {
      OffsetMonotone(c, i, j - 1);
    }
  }

  lemma {:induction false} OffsetFormula(c: Capacity, j: nat)
    requires j >= 1
    ensures c.Offset(j) == c.first + (j - 1) * c.later
  {
    if j > 1 {
      OffsetFormula(c, j - 1);
      assert (j - 1) * c.later == (j - 2) * c.later + c.later;
    } else {
      assert c.Offset(1) == c.Offset(0) + c.At(0);
    }
  }

  lemma CeilUnique(m: nat, c: nat, q: nat)
    requires c > 0 && q >= 1 && (q - 1) * c < m <= q * c
    ensures q == (m + c - 1) / c
  {
    var r := m + c - 1 - q * c;
    assert (q - 1) * c == q * c - c;
    assert 0 <= r < c && m + c - 1 == q * c + r;
    DivUnique(m + c - 1, c, q, r);
  }

  lemma DivUnique(n: nat, c: nat, q: nat, r: nat)
    requires c > 0 && r < c && n == q * c + r
    ensures q == n / c
  {
    MulGap(c, q, n / c);
    MulGap(c, n / c, q);
    assert n == n / c * c + n % c;
  }

  lemma MulGap(c: nat, a: nat, b: nat)
    ensures a > b ==> a * c >= b * c + c
  {
    if a > b {
      assert a * c == b * c + (a - b) * c;
      assert (a - b) * c == c + (a - b - 1) * c;
    }
  }

  /** One part if the payload fits the first fragment, else one and the ceiling of the rest. */
  lemma PartCountFormula(c: Capacity, len: nat)
    requires c.Cuttable(len)
    ensures c.PartCount(len) ==
            if len <= c.first then 1 else 1 + (len - c.first + c.later - 1) / c.later
  {
    var n := c.PartCount(len);
    assert c.Offset(1) == c.Offset(0) + c.At(0);
    if len > c.first {
      assert n >= 2;
      OffsetFormula(c, n);
      OffsetFormula(c, n - 1);
      CeilUnique(len - c.first, c.later, n - 1);
    }
  }

  lemma TakeMore(p: string, i: nat, n: nat)
    ensures p[..Clip(p, i + n)] == p[..Clip(p, i)] + Substr(p, Clip(p, i), n)
  {
  }

  lemma {:induction false} SlicesFlatten(p: string, c: Capacity, k: nat)
    ensures Flatten(Slices(p, c, k)) == p[..Clip(p, c.Offset(k))]
  {
    if k == 0 {
    } else {
      SlicesFlatten(p, c, k - 1);
      assert Slices(p, c, k)[..k - 1] == Slices(p, c, k - 1);
      TakeMore(p, c.Offset(k - 1), c.At(k - 1));
    }
  }

  lemma {:induction false} SlicesAt(p: string, c: Capacity, j: nat, k: nat)
    requires j < k
    ensures Slices(p, c, k)[j] == Substr(p, Clip(p, c.Offset(j)), c.At(j))
  {
    if j == k - 1 {
    } else {
      SlicesAt(p, c, j, k - 1);
    }
  }

  /** The parts concatenate to the payload. */
  lemma CutFlattens(p: string, c: Capacity)
    requires c.Cuttable(|p|)
    ensures Flatten(Cut(p, c)) == p
  {
    SlicesFlatten(p, c, c.PartCount(|p|));
  }

  /** Every part but the last is full; only an empty payload or capacity gives an empty part. */
  lemma CutSizes(p: string, c: Capacity, j: nat)
    requires c.Cuttable(|p|) && j < c.PartCount(|p|)
    ensures j < c.PartCount(|p|) - 1 ==> |Cut(p, c)[j]| == c.At(j)
    ensures |Cut(p, c)[j]| <= c.At(j)
    ensures Cut(p, c)[j] == "" <==> p == "" || (j == 0 && c.first == 0)
  {
    SlicesAt(p, c, j, c.PartCount(|p|));
    assert c.Offset(j + 1) == c.Offset(j) + c.At(j);
  }

  // ---------------------------------------------------------------- the 32-bit loop

  /**
   * The variables of the loop. It is undefined what happens once the counter
   * has made the list of fragments empty, because its last element is used.
   */
  datatype Loop = Loop(parts: seq<string>, fragment: uint32, offset: uint32) | Undefined {
    predicate Continues(len: nat) {
      Loop? && (fragment == 0 || offset < len)
    }
  }

  /** `std::vector::resize`. */
  function Resized(parts: seq<string>, size: nat): (s: seq<string>)
    ensures |s| == size
  {
    if size <= |parts| then parts[..size] else parts + seq(size - |parts|, _ => "")
  }

  /** One execution of the loop body, with its 32-bit counter and offset. */
  function Iterate(p: string, c: Capacity, l: Loop): Loop {
    match l
    case Undefined => Undefined
    case Loop(parts, fragment, offset) =>
      var size := Add32(fragment, 1);
      if size == 0 then Undefined
      else Loop(Resized(parts, size)[size - 1 := Substr(p, Clip(p, offset), c.At(fragment))],
                size, Add32(offset, c.At(fragment)))
  }

  function Iterations(p: string, c: Capacity, k: nat): Loop {
    if k == 0 then Loop([], 0, 0) else Iterate(p, c, Iterations(p, c, k - 1))
  }

  /** The loop is left after exactly k iterations. */
  ghost predicate LoopStops(p: string, c: Capacity, k: nat) {
    && (forall j: nat | j < k :: Iterations(p, c, j).Continues(|p|))
    && Iterations(p, c, k).Loop? && !Iterations(p, c, k).Continues(|p|)
  }

  /** What k iterations of the loop have cut off. */
  function Emitted(p: string, c: Capacity, k: nat): (s: seq<string>)
    ensures |s| == k
  {
    if k == 0 then []
    else Emitted(p, c, k - 1) + [Substr(p, Clip(p, c.Offset32(k - 1)), c.At(k - 1))]
  }

  /** Offset k is the first one at or behind the end. */
  ghost predicate Passes(c: Capacity, len: nat, k: nat) {
    && k >= 1
    && c.Offset32(k) >= len
    && forall j: nat | 1 <= j < k :: c.Offset32(j) < len
  }

  lemma ResizeAppends(parts: seq<string>, x: string)
    ensures Resized(parts, |parts| + 1)[|parts| := x] == parts + [x]
  {
  }

  lemma OneIteration(p: string, c: Capacity, k: nat)
    requires 1 <= k < TWO32
    ensures Iterate(p, c, Loop(Emitted(p, c, k - 1), k - 1, c.Offset32(k - 1)))
         == Loop(Emitted(p, c, k), k, c.Offset32(k))
  {
    ResizeAppends(Emitted(p, c, k - 1), Substr(p, Clip(p, c.Offset32(k - 1)), c.At(k - 1)));
  }

  lemma {:induction false} IterationsExact(p: string, c: Capacity, k: nat)
    ensures Iterations(p, c, k) == if k < TWO32 then Loop(Emitted(p, c, k), k, c.Offset32(k)) else Undefined
  {
    if k == 0 {
    } else {
      IterationsExact(p, c, k - 1);
      if k < TWO32 {
        OneIteration(p, c, k);
      }
    }
  }

  /** The loop is left when an offset passes the end before the counter is used up. */
  lemma LoopStopsExact(p: string, c: Capacity, k: nat)
    ensures LoopStops(p, c, k) <==> k < TWO32 && Passes(c, |p|, k)
  {
    forall j: nat | j <= k
      ensures Iterations(p, c, j)
           == if j < TWO32 then Loop(Emitted(p, c, j), j, c.Offset32(j)) else Undefined
    {
      IterationsExact(p, c, j);
    }
    if k < TWO32 && Passes(c, |p|, k) {
      forall j: nat | j < k ensures Iterations(p, c, j).Continues(|p|) {
        assert j >= 1 ==> c.Offset32(j) < |p|;
      }
    }
    if LoopStops(p, c, k) {
      forall j: nat | 1 <= j < k ensures c.Offset32(j) < |p| {
        assert Iterations(p, c, j).Continues(|p|);
      }
    }
  }

  lemma {:induction false} Offset32Agrees(c: Capacity, j: nat)
    requires c.Offset(j) < TWO32
    ensures c.Offset32(j) == c.Offset(j)
  {
    if j == 0 {
    } else {
      OffsetMonotone(c, j - 1, j);
      Offset32Agrees(c, j - 1);
    }
  }

  lemma {:induction false} EmittedAgrees(p: string, c: Capacity, k: nat)
    requires forall j: nat | j < k :: c.Offset32(j) == c.Offset(j)
    ensures Emitted(p, c, k) == Slices(p, c, k)
  {
    if k == 0 {
    } else {
      EmittedAgrees(p, c, k - 1);
    }
  }

  lemma {:induction false} EmittedSizes(p: string, c: Capacity, j: nat, k: nat)
    requires j < k
    ensures |Emitted(p, c, k)[j]| <= c.At(j)
  {
    if j == k - 1 {
    } else {
      EmittedSizes(p, c, j, k - 1);
    }
  }

  lemma EmittedFlattens(p: string, c: Capacity, k: nat)
    requires k >= 1
    ensures Flatten(Emitted(p, c, k))
         == Flatten(Emitted(p, c, k - 1)) + Substr(p, Clip(p, c.Offset32(k - 1)), c.At(k - 1))
  {
    assert Emitted(p, c, k)[..k - 1] == Emitted(p, c, k - 1);
  }

  lemma EmittedGrowsOnce(p: string, c: Capacity, k: nat)
    requires k >= 1
    ensures |Flatten(Emitted(p, c, k - 1))| <= |Flatten(Emitted(p, c, k))|
  {
    EmittedFlattens(p, c, k);
  }

  lemma {:induction false} EmittedGrows(p: string, c: Capacity, j: nat, k: nat)
    requires j <= k
    ensures |Flatten(Emitted(p, c, j))| <= |Flatten(Emitted(p, c, k))|
    decreases k
  {
    if j == k {
    } else {
      EmittedGrows(p, c, j, k - 1);
      EmittedGrowsOnce(p, c, k);
    }
  }

  /** Without a wrap the loop stops after the intended number of parts and emits them. */
  lemma LoopIsExact(p: string, c: Capacity)
    requires c.NoWrap(|p|)
    ensures c.PartCount(|p|) < TWO32 && Passes(c, |p|, c.PartCount(|p|))
    ensures Emitted(p, c, c.PartCount(|p|)) == Cut(p, c)
  {
    var n := c.PartCount(|p|);
    assert c.Offset(1) == c.first;
    assert c.Offset(n) < TWO32;
    forall j: nat | j <= n
      ensures c.Offset32(j) == c.Offset(j)
      ensures j >= 1 ==> (c.Offset32(j) < |p| <==> j < n)
    {
      OffsetMonotone(c, j, n);
      Offset32Agrees(c, j);
    }
    EmittedAgrees(p, c, n);
  }

  lemma {:induction false} StandsStill(c: Capacity, j: nat)
    requires c.later == 0 && j >= 1
    ensures c.Offset32(j) == c.first
  {
    if j == 1 {
      assert c.Offset32(1) == Add32(c.Offset32(0), c.At(0));
    } else {
      StandsStill(c, j - 1);
    }
  }

  /** Before the intended end, offsets are exact. */
  lemma EarlyOffset(c: Capacity, len: nat, j: nat)
    requires c.Cuttable(len) && len <= TWO32 && 1 <= j < c.PartCount(len)
    ensures c.Offset32(j) == c.Offset(j) < len
  {
    Offset32Agrees(c, j);
  }

  /** After a wrap the offset is back inside the payload when it should be behind it. */
  lemma WrappedOffset(c: Capacity, len: nat)
    requires c.later > 0 && c.first < len < TWO32 <= c.Offset(c.PartCount(len))
    ensures c.Offset32(c.PartCount(len)) < len
  {
    var n := c.PartCount(len);
    assert c.Offset(1) == c.first;
    EarlyOffset(c, len, n - 1);
  }

  /** Before the intended end, everything has been cut off as intended. */
  lemma EmittedAtWrap(p: string, c: Capacity)
    requires c.later > 0 && c.first < |p| < TWO32
    ensures Flatten(Emitted(p, c, c.PartCount(|p|))) == p
  {
    var n := c.PartCount(|p|);
    forall j: nat | j < n ensures c.Offset32(j) == c.Offset(j) {
      if j > 0 {
        EarlyOffset(c, |p|, j);
      }
    }
    EmittedAgrees(p, c, n);
    CutFlattens(p, c);
  }

  /** The iteration after a wrap cuts off bytes that have already been cut off. */
  lemma RepeatsAfterWrap(p: string, c: Capacity)
    requires c.later > 0 && c.first < |p| < TWO32 <= c.Offset(c.PartCount(|p|))
    ensures |Flatten(Emitted(p, c, c.PartCount(|p|) + 1))| > |p|
  {
    var n := c.PartCount(|p|);
    WrappedOffset(c, |p|);
    EmittedAtWrap(p, c);
    EmittedFlattens(p, c, n + 1);
  }

  lemma LateStop(c: Capacity, len: nat, k: nat)
    requires c.later > 0 && c.first < len && TWO32 <= c.Offset(c.PartCount(len)) && Passes(c, len, k)
    ensures len < TWO32 && k > c.PartCount(len)
  {
    WrappedOffset(c, len);
    if k < c.PartCount(len) {
      EarlyOffset(c, len, k);
    }
  }

  /** If only the counter wraps, the loop is not left before it does. */
  lemma CounterWraps(c: Capacity, len: nat, k: nat)
    requires c.later > 0 && c.first < len && c.Offset(c.PartCount(len)) < TWO32 <= c.PartCount(len)
    requires Passes(c, len, k)
    ensures k >= TWO32
  {
    if k < c.PartCount(len) {
      EarlyOffset(c, len, k);
    }
  }

  /** If the offset wraps, too much has been emitted when the loop is left. */
  lemma OffsetWraps(p: string, c: Capacity, k: nat)
    requires c.later > 0 && c.first < |p| && TWO32 <= c.Offset(c.PartCount(|p|)) && Passes(c, |p|, k)
    ensures |Flatten(Emitted(p, c, k))| > |p|
  {
    LateStop(c, |p|, k);
    RepeatsAfterWrap(p, c);
    EmittedGrows(p, c, c.PartCount(|p|) + 1, k);
  }

  /** With a wrap the loop is never left properly, or has emitted too much when it is. */
  lemma WrapGoesWrong(p: string, c: Capacity, k: nat)
    requires !c.NoWrap(|p|) && k < TWO32 && Passes(c, |p|, k)
    ensures |Flatten(Emitted(p, c, k))| > |p|
  {
    if c.later == 0 {
      StandsStill(c, k);
    } else if c.Offset(c.PartCount(|p|)) < TWO32 {
      CounterWraps(c, |p|, k);
    } else {
      OffsetWraps(p, c, k);
    }
  }

  /**
   * The loop, run in 32-bit arithmetic, is left with parts that concatenate to
   * the payload exactly when neither the offset nor the counter wraps.
   */
  lemma LoopCorrectIffNoWrap(p: string, c: Capacity)
    ensures c.NoWrap(|p|) <==>
            exists k :: LoopStops(p, c, k) && Flatten(Iterations(p, c, k).parts) == p
  {
    if c.NoWrap(|p|) {
      var n := c.PartCount(|p|);
      LoopIsExact(p, c);
      CutFlattens(p, c);
      LoopStopsExact(p, c, n);
      IterationsExact(p, c, n);
      assert LoopStops(p, c, n) && Flatten(Iterations(p, c, n).parts) == p;
    } else if k :| LoopStops(p, c, k) && Flatten(Iterations(p, c, k).parts) == p {
      LoopStopsExact(p, c, k);
      IterationsExact(p, c, k);
      WrapGoesWrong(p, c, k);
    }
  }

  /** With one byte in every fragment but the first, a payload can use up the counter. */
  lemma CounterExample()
    ensures var c := Capacity(0, 1);
            c.PartCount(TWO32 - 1) == TWO32 && c.Offset(TWO32) == TWO32 - 1 && !c.NoWrap(TWO32 - 1)
  {
    PartCountFormula(Capacity(0, 1), TWO32 - 1);
    OffsetFormula(Capacity(0, 1), TWO32);
  }

  /** That many fragments within that few bytes have to be that small. */
  lemma CounterNeedsBytes(c: Capacity, n: nat)
    requires c.later > 0 && TWO32 <= n && c.Offset(n) < TWO32
    ensures c == Capacity(0, 1) && n == TWO32 && c.Offset(n - 1) == TWO32 - 2
  {
    OffsetFormula(c, n);
    MulGap(n - 1, c.later, 1);
    assert c.Offset(n) == c.Offset(n - 1) + c.At(n - 1);
  }

  /** The counter wraps before the offset does in that single case. */
  lemma CounterWrapsFirstIff(c: Capacity, len: nat)
    requires c.Cuttable(len) && len > c.first && c.Offset(c.PartCount(len)) < TWO32
    ensures c.PartCount(len) >= TWO32 <==> c == Capacity(0, 1) && len == TWO32 - 1
  {
    if c.PartCount(len) >= TWO32 {
      CounterNeedsBytes(c, c.PartCount(len));
    }
    if c == Capacity(0, 1) && len == TWO32 - 1 {
      CounterExample();
    }
  }

  /** A payload just above 2^31 bytes, cut with a limit just above 2^31 bytes, wraps. */
  lemma WrapExample()
    ensures var b := Budget(0x8000_0064, 100, 50);
            !b.Rejects(0x8000_0001) && !b.Room().NoWrap(0x8000_0001) && b.Room().Offset32(2) == 50
  {
    var c := Budget(0x8000_0064, 100, 50).Room();
    assert c == Capacity(0x8000_0000, 0x8000_0032);
    assert c.PartCount(0x8000_0001) == 2;
    assert c.Offset32(1) == 0x8000_0000;
  }

  // ---------------------------------------------------------------- budgets

  /** A fragment stays within the limit exactly when its header alone does. */
  lemma FragmentFits(p: string, b: Budget, j: nat)
    requires b.Room().Cuttable(|p|) && j < b.Room().PartCount(|p|) && !b.Rejects(|p|)
    ensures b.HeaderSize(j) <= b.maxSize <==> b.HeaderSize(j) + b.Room().At(j) <= b.maxSize
    ensures MIN_DATA_SPACE <= b.maxSize ==> b.HeaderSize(j) <= b.maxSize && b.Room().At(j) > MIN_DATA_SPACE
    ensures b.HeaderSize(j) <= b.maxSize ==> b.HeaderSize(j) + |Cut(p, b.Room())[j]| <= b.maxSize
  {
    CutSizes(p, b.Room(), j);
  }

  /** The size check, as a comparison of unbounded numbers. */
  lemma SizeCheckExact(b: Budget, j: nat)
    ensures b.TooBig(j) <==>
            (if j == 0 then b.first else b.later) + 5 >= if b.maxSize >= 5 then b.maxSize else b.maxSize + 0x1_0000_0000
  {
  }

  /** All the room that an accepted header leaves is used. */
  lemma RoomExact(b: Budget, j: nat)
    requires b.maxSize >= 5 && !b.TooBig(j)
    ensures (if j == 0 then b.first else b.later) + b.Room().At(j) == b.maxSize
  {
    SizeCheckExact(b, j);
  }

  /** A limit below 5 bytes turns the size check around: oversized headers pass it. */
  lemma TinyLimitExample()
    ensures var b := Budget(4, 10, 10); !b.Rejects(0) && b.HeaderSize(0) > b.maxSize
  {
  }

  /** A size error can only come from fragment 0 when the later header is no larger. */
  lemma RejectionIsImmediate(p: string, b: Budget, memory: uint32)
    requires b.later <= b.first
    ensures b.Rejects(|p|) <==> b.TooBig(0)
    ensures CutWithin(p, b, memory) == Err(ProtocolError) <==> b.TooBig(0) && memory > 0
  {
  }

  /** A sufficient condition that only needs the limit and the length. */
  lemma BoundedOffsets(b: Budget, len: nat)
    requires MIN_DATA_SPACE <= b.maxSize && !b.Rejects(len) && len + b.maxSize <= TWO32
    ensures b.Room().NoWrap(len) && b.Room().PartCount(len) < TWO32
    ensures forall j: nat | j < b.Room().PartCount(len) ::
              && b.Room().Offset32(j) <= len
              && b.Room().Offset32(j + 1) >= b.Room().Offset32(j) + MIN_DATA_SPACE + 1
  {
    var c := b.Room();
    var n := c.PartCount(len);
    if len > c.first {
      assert c.Offset(n) == c.Offset(n - 1) + c.At(n - 1);
      CounterWrapsFirstIff(c, len);
    }
    forall j: nat | j < n
      ensures c.Offset32(j) <= len && c.Offset32(j + 1) >= c.Offset32(j) + MIN_DATA_SPACE + 1
    {
      OffsetMonotone(c, j, n - 1);
      OffsetMonotone(c, j + 1, n);
      Offset32Agrees(c, j);
      Offset32Agrees(c, j + 1);
    }
  }

  // ---------------------------------------------------------------- limited memory

  /** The first j from there on whose offset is at or behind the end, if it is at most `memory`. */
  function Passing(c: Capacity, len: nat, j: nat, memory: uint32): (r: Option<nat>)
    ensures r.Some? ==> j <= r.value <= memory && c.Offset32(r.value) >= len
                        && forall i | j <= i < r.value :: c.Offset32(i) < len
    ensures r.None? ==> forall i | j <= i <= memory :: c.Offset32(i) < len
    decreases memory + 1 - j
  {
    if j > memory then None else if c.Offset32(j) >= len then Some(j) else Passing(c, len, j + 1, memory)
  }

  /**
   * What the loop makes of a payload when memory holds that many fragments:
   * the list grows before the size of its new element is checked.
   */
  function CutWithin(p: string, b: Budget, memory: uint32): Result<seq<string>> {
    var c := b.Room();
    if memory == 0 then Err(OutOfMemory)
    else if b.TooBig(0) then Err(ProtocolError)
    else if |p| <= c.first then Ok(Emitted(p, c, 1))
    else if memory == 1 then Err(OutOfMemory)
    else if b.TooBig(1) then Err(ProtocolError)
    else match Passing(c, |p|, 2, memory)
         case None => Err(OutOfMemory)
         case Some(k) => Ok(Emitted(p, c, k))
  }

  /**
   * For limits of at least 5 bytes: a size error comes exactly from a header,
   * of a fragment that is needed and fits into memory, that leaves no more than
   * 5 bytes; with 6 bytes or more left in each, parts come out or memory ends.
   */
  lemma SizesDecide(p: string, b: Budget, memory: uint32)
    requires b.maxSize >= 5
    ensures CutWithin(p, b, memory) == Err(ProtocolError) <==>
            && memory >= 1
            && (b.first + 5 >= b.maxSize || (memory >= 2 && |p| > b.maxSize - b.first && b.later + 5 >= b.maxSize))
    ensures CutWithin(p, b, memory).Ok? ==>
              && b.first + 6 <= b.maxSize
              && (|CutWithin(p, b, memory).value| > 1 ==> b.later + 6 <= b.maxSize)
    ensures CutWithin(p, b, memory).Err? ==> CutWithin(p, b, memory).error in {ProtocolError, OutOfMemory}
  {
    SizeCheckExact(b, 0);
    SizeCheckExact(b, 1);
  }

  lemma PassingExact(c: Capacity, len: nat, memory: uint32, k: nat)
    requires c.first < len
    ensures Passing(c, len, 2, memory) == Some(k) <==> k <= memory && Passes(c, len, k)
  {
    assert c.Offset32(1) == Add32(c.Offset32(0), c.At(0));
    if k <= memory && Passes(c, len, k) {
      assert k >= 2;
      assert Passing(c, len, 2, memory).Some?;
    }
  }

  /** The loop is left after k iterations, which fit into memory, with these parts. */
  ghost predicate LeavesWith(p: string, c: Capacity, memory: uint32, k: nat, parts: seq<string>) {
    k <= memory && LoopStops(p, c, k) && Iterations(p, c, k).parts == parts
  }

  lemma LeavesWithExact(p: string, c: Capacity, memory: uint32, k: nat, parts: seq<string>)
    ensures LeavesWith(p, c, memory, k, parts) <==>
            k <= memory && Passes(c, |p|, k) && Emitted(p, c, k) == parts
  {
    LoopStopsExact(p, c, k);
    IterationsExact(p, c, k);
  }

  /** Parts come out exactly when no size is rejected and the loop is left within memory. */
  lemma CutWithinExact(p: string, b: Budget, memory: uint32, parts: seq<string>)
    ensures CutWithin(p, b, memory) == Ok(parts) <==>
            !b.Rejects(|p|) && exists k :: LeavesWith(p, b.Room(), memory, k, parts)
  {
    var c := b.Room();
    assert c.Offset32(1) == Add32(c.Offset32(0), c.At(0));
    if CutWithin(p, b, memory) == Ok(parts) {
      var k := if |p| <= c.first then 1 else Passing(c, |p|, 2, memory).value;
      assert Passes(c, |p|, k);
      LeavesWithExact(p, c, memory, k, parts);
    }
    if !b.Rejects(|p|) {
      if k :| LeavesWith(p, c, memory, k, parts) {
        LeavesWithExact(p, c, memory, k, parts);
        if |p| > c.first {
          PassingExact(c, |p|, memory, k);
        }
      }
    }
  }

  /**
   * Without a wrap and with enough memory the intended parts come out; with a
   * wrap never anything that makes up the payload.
   */
  lemma CutWithinCorrectIff(p: string, b: Budget, memory: uint32)
    requires !b.Rejects(|p|)
    ensures (exists parts :: CutWithin(p, b, memory) == Ok(parts) && Flatten(parts) == p) <==>
            b.Room().NoWrap(|p|) && b.Room().PartCount(|p|) <= memory
    ensures b.Room().NoWrap(|p|) && b.Room().PartCount(|p|) <= memory ==>
            CutWithin(p, b, memory) == Ok(Cut(p, b.Room()))
  {
    var c := b.Room();
    if c.NoWrap(|p|) {
      var n := c.PartCount(|p|);
      LoopIsExact(p, c);
      CutFlattens(p, c);
      if n <= memory {
        LeavesWithExact(p, c, memory, n, Cut(p, c));
        CutWithinExact(p, b, memory, Cut(p, c));
      }
    }
    if parts :| CutWithin(p, b, memory) == Ok(parts) && Flatten(parts) == p {
      CutWithinExact(p, b, memory, parts);
      var k :| LeavesWith(p, c, memory, k, parts);
      LeavesWithExact(p, c, memory, k, parts);
      if c.NoWrap(|p|) {
        PassesOnce(c, |p|, k, c.PartCount(|p|));
      } else {
        WrapGoesWrong(p, c, k);
      }
    }
  }

  lemma PassesOnce(c: Capacity, len: nat, k: nat, n: nat)
    requires Passes(c, len, k) && Passes(c, len, n)
    ensures k == n
  {
  }

  /** A fragment that is cut off uses at most the room that its header leaves. */
  lemma CutOffFits(p: string, b: Budget, memory: uint32, j: nat)
    requires b.maxSize >= 5 && CutWithin(p, b, memory).Ok? && j < |CutWithin(p, b, memory).value|
    ensures b.HeaderSize(j) + |CutWithin(p, b, memory).value[j]| <= b.maxSize
  {
    var parts := CutWithin(p, b, memory).value;
    CutWithinExact(p, b, memory, parts);
    var k :| LeavesWith(p, b.Room(), memory, k, parts);
    LeavesWithExact(p, b.Room(), memory, k, parts);
    EmittedSizes(p, b.Room(), j, k);
    RoomExact(b, j);
  }

  /** All the parts but the last use that room up, if nothing wraps. */
  lemma CutOffIsFull(p: string, b: Budget, memory: uint32, j: nat)
    requires b.maxSize >= 5 && CutWithin(p, b, memory).Ok? && j < |CutWithin(p, b, memory).value| - 1
    requires b.Room().NoWrap(|p|)
    ensures b.HeaderSize(j) + |CutWithin(p, b, memory).value[j]| == b.maxSize
  {
    CutOffIsCut(p, b, memory);
    CutSizes(p, b.Room(), j);
    RoomExact(b, j);
  }

  /** What is cut off makes up the payload exactly if nothing wraps, and then is what was intended. */
  lemma CutOffIsCut(p: string, b: Budget, memory: uint32)
    requires CutWithin(p, b, memory).Ok?
    ensures !b.Rejects(|p|)
    ensures |CutWithin(p, b, memory).value| >= 1
    ensures Flatten(CutWithin(p, b, memory).value) == p <==> b.Room().NoWrap(|p|)
    ensures b.Room().NoWrap(|p|) ==> CutWithin(p, b, memory) == Ok(Cut(p, b.Room()))
  {
    var parts := CutWithin(p, b, memory).value;
    CutWithinExact(p, b, memory, parts);
    var k :| LeavesWith(p, b.Room(), memory, k, parts);
    LeavesWithExact(p, b.Room(), memory, k, parts);
    if b.Room().NoWrap(|p|) {
      LoopIsExact(p, b.Room());
      PassesOnce(b.Room(), |p|, k, b.Room().PartCount(|p|));
      CutFlattens(p, b.Room());
    } else {
      WrapGoesWrong(p, b.Room(), k);
    }
  }
}
