/**
  Shared-memory pools and the buffers cut out of them
  (wayland-host/src/buffer_shm.c:97-280). Requests carry int32 values and
  sizes are 64-bit; the machine arithmetic is written out.
 */
module ShmPool {
  import opened Common

  type PoolId = nat
  type BufferId = nat
  type Address = int

  const TWO31: int := 0x8000_0000
  const TWO32: int := 0x1_0000_0000
  const TWO64: int := 0x1_0000_0000_0000_0000

  const ARGB8888: nat := 0
  const XRGB8888: nat := 1

  predicate Int32(x: int) {
    -TWO31 <= x < TWO31
  }

  /* ---------- the checks of create_buffer ---------- */

  datatype Shape = Shape(offset: int, width: int, height: int, stride: int)

  predicate ShapeTyped(x: Shape) {
    Int32(x.offset) && Int32(x.width) && Int32(x.height) && Int32(x.stride)
  }

  /** int32 multiplication by four, as the machine wraps it. */
  function TimesFour(width: int): int {
    var m := (width * 4) % TWO32;
    if m >= TWO31 then m - TWO32 else m
  }

  /** Conversion of an int32 to size_t. */
  function ToSize(x: int): int {
    if x < 0 then x + TWO64 else x
  }

  /** `offset + stride * height` in size_t arithmetic. */
  function ByteEnd(x: Shape): int {
    (ToSize(x.offset) + (ToSize(x.stride) * ToSize(x.height)) % TWO64) % TWO64
  }

  predicate AcceptsShape(poolSize: int, x: Shape) {
    !(x.width <= 0 || x.height <= 0 || x.stride < TimesFour(x.width) || x.offset < 0 || ByteEnd(x) > poolSize)
  }

  predicate AcceptsFormat(format: nat) {
    format == XRGB8888 || format == ARGB8888
  }

  lemma {:induction false} ProductBound(a: int, b: int, n: int)
    requires 0 <= a <= n && 0 <= b <= n
    ensures 0 <= a * b <= n * n
  {
    assert a * b <= a * n <= n * n;
  }

  lemma {:induction false} ModOf(q: int, r: int)
    requires 0 <= r < TWO64
    ensures (q * TWO64 + r) % TWO64 == r
  {
  }

  lemma {:induction false} SmallMod(r: int)
    requires 0 <= r < TWO64
    ensures r % TWO64 == r
  {
  }

  lemma {:induction false} PositiveProduct(a: int, b: int)
    requires a > 0 && b > 0
    ensures a * b > 0
  {
  }

  /** A negative product, k below zero, is k below 2^64 in size_t. */
  lemma {:induction false} NegativeProduct(stride: int, height: int, k: int)
    requires -TWO31 <= stride < 0 < height < TWO31 && k == (-stride) * height && 0 < k < TWO64
    ensures (ToSize(stride) * ToSize(height)) % TWO64 == TWO64 - k
  {
    assert ToSize(stride) * height == (height - 1) * TWO64 + (TWO64 - k);
    ModOf(height - 1, TWO64 - k);
  }

  lemma {:induction false} Turn(offset: int, k: int)
    requires 0 <= offset < TWO31 && 0 < k <= TWO31 * TWO31
    ensures (offset + (TWO64 - k)) % TWO64 == if offset < k then offset - k + TWO64 else offset - k
  {
    if offset >= k {
      ModOf(1, offset - k);
    } else {
      ModOf(0, offset + TWO64 - k);
    }
  }

  /** The sum as unbounded integers have it, one turn of the 64-bit wheel added when it is negative. */
  lemma {:induction false} ByteEndIs(x: Shape)
    requires ShapeTyped(x) && 0 <= x.offset && 0 < x.height
    ensures
      var end := x.offset + x.stride * x.height;
      -TWO31 * TWO31 <= end < TWO64 && ByteEnd(x) == if end < 0 then end + TWO64 else end
  {
    if x.stride < 0 {
      var k := (-x.stride) * x.height;
      ProductBound(-x.stride, x.height, TWO31);
      PositiveProduct(-x.stride, x.height);
      NegativeProduct(x.stride, x.height, k);
      Turn(x.offset, k);
      assert x.stride * x.height == -k;
    } else {
      var k := x.stride * x.height;
      ProductBound(x.stride, x.height, TWO31);
      SmallMod(k);
      SmallMod(x.offset + k);
    }
  }

  lemma {:induction false} TimesFourIs(width: int)
    requires 0 < width < TWO31
    ensures width < 0x2000_0000 ==> TimesFour(width) == 4 * width
    ensures width >= 0x2000_0000 ==> TimesFour(width) < 4 * width && 4 * width >= TWO31
  {
    if width < 0x2000_0000 {
      assert (width * 4) % TWO32 == width * 4;
    }
  }

  /** Every byte of every row the shape describes lies in `0 .. poolSize`. */
  ghost predicate PixelsInside(poolSize: int, x: Shape) {
    forall row, i {:trigger PixelAt(x, row, i)} ::
      0 <= row < x.height && 0 <= i < 4 * x.width ==> 0 <= PixelAt(x, row, i) < poolSize
  }

  function PixelAt(x: Shape, row: int, i: int): int {
    x.offset + row * x.stride + i
  }

  lemma {:induction false} RowInside(row: int, height: int, stride: int)
    requires 0 <= row < height && 0 <= stride
    ensures 0 <= row * stride && row * stride + stride <= height * stride
  {
    var left := height - 1 - row;
    assert 0 <= left * stride;
    assert height * stride == row * stride + stride + left * stride;
  }

  /** Acceptance read in unbounded integers: the checks are the intended ones, but for the wrapped row length. */
  lemma {:induction false} AcceptsIff(poolSize: int, x: Shape)
    requires ShapeTyped(x) && 0 < poolSize < TWO31
    ensures AcceptsShape(poolSize, x) <==>
              && 0 < x.width && 0 < x.height && 0 <= x.offset && TimesFour(x.width) <= x.stride
              && 0 <= x.offset + x.stride * x.height <= poolSize
  {
    if 0 <= x.offset && 0 < x.height {
      ByteEndIs(x);
    }
  }

  /**
    An accepted buffer has all its pixels inside the pool exactly when its row
    length does not overflow.
   */
  lemma {:induction false} PixelsInsideIff(poolSize: int, x: Shape)
    requires ShapeTyped(x) && 0 < poolSize < TWO31 && AcceptsShape(poolSize, x)
    ensures PixelsInside(poolSize, x) <==> x.width < 0x2000_0000
  {
    AcceptsIff(poolSize, x);
    TimesFourIs(x.width);
    if x.width < 0x2000_0000 {
      forall row, i | 0 <= row < x.height && 0 <= i < 4 * x.width
        ensures 0 <= PixelAt(x, row, i) < poolSize
      {
        RowInside(row, x.height, x.stride);
        assert x.height * x.stride == x.stride * x.height;
      }
    } else {
      assert PixelAt(x, 0, 4 * x.width - 1) >= poolSize;
    }
  }

  /** The overflow is reachable: a shape one row high that claims 2^30 pixels is accepted. */
  lemma {:induction false} OverflowAccepted(poolSize: int)
    requires 0 < poolSize < TWO31
    ensures AcceptsShape(poolSize, Shape(0, 0x4000_0000, 1, 0))
  {
    ByteEndIs(Shape(0, 0x4000_0000, 1, 0));
  }

  /* ---------- pools and buffers ---------- */

  datatype Pool = Pool(base: Address, size: int, references: int, buffers: seq<BufferId>, resource: bool)

  datatype Buffer = Buffer(pool: PoolId, data: Address, shape: Shape)

  /** What the kernel holds for a pool's file. */
  datatype Mapping = Mapping(base: Address, size: int)

  /** `whole`: munmap named exactly the mapping that existed. */
  datatype Event = Unmapped(pool: PoolId, whole: bool) | Refused

  datatype State = State(
    pools: map<PoolId, Pool>, buffers: map<BufferId, Buffer>,
    kernel: map<PoolId, Mapping>, used: set<PoolId>, log: seq<Event>)

  const INITIAL := State(map[], map[], map[], {}, [])

  /** Addresses come from mmap and mremap; None is a failed call. */
  datatype Step =
    | CreatePool(p: PoolId, size: int, mapped: Option<Address>)
    | Resize(p: PoolId, size: int, mapped: Option<Address>)
    | DestroyPool(p: PoolId)                // its resource goes
    | CreateBuffer(p: PoolId, b: BufferId, shape: Shape, format: nat)
    | DestroyStorage(b: BufferId)           // the buffer's last reference goes

  function Refuse(st: State): State {
    st.(log := st.log + [Refused])
  }

  function PoolUnref(st: State, p: PoolId): State
    requires p in st.pools
  {
    var x := st.pools[p].(references := st.pools[p].references - 1);
    if x.references != 0 then st.(pools := st.pools[p := x])
    else
      var whole := p in st.kernel && st.kernel[p] == Mapping(x.base, x.size);
      st.(pools := st.pools - {p}, kernel := st.kernel - {p}, log := st.log + [Unmapped(p, whole)])
  }

  /** The loop of pool_resize over the pool's own list. */
  function Rebase(buffers: map<BufferId, Buffer>, ids: seq<BufferId>, base: Address): map<BufferId, Buffer> {
    map b | b in buffers :: if b in ids then buffers[b].(data := base + buffers[b].shape.offset) else buffers[b]
  }

  /** Requests arrive on live resources with int32 arguments, and new objects are new. */
  predicate Enabled(st: State, step: Step) {
    match step
    case CreatePool(p, size, _) => p !in st.used && p !in st.pools && Int32(size)
    case Resize(p, size, _) => p in st.pools && st.pools[p].resource && Int32(size)
    case DestroyPool(p) => p in st.pools && st.pools[p].resource
    case CreateBuffer(p, b, shape, _) => p in st.pools && st.pools[p].resource && b !in st.buffers && ShapeTyped(shape)
    case DestroyStorage(b) => b in st.buffers && st.buffers[b].pool in st.pools
  }

  function ApplyResize(st: State, p: PoolId, size: int, mapped: Option<Address>): State
    requires p in st.pools
  {
    var x := st.pools[p];
    if size <= 0 || size <= x.size || mapped.None? then Refuse(st)
    else
      st.(pools := st.pools[p := x.(base := mapped.value, size := size)],
          kernel := st.kernel[p := Mapping(mapped.value, size)],
          buffers := Rebase(st.buffers, x.buffers, mapped.value))
  }

  function ApplyCreateBuffer(st: State, p: PoolId, b: BufferId, shape: Shape, format: nat): State
    requires p in st.pools
  {
    var x := st.pools[p];
    if !AcceptsShape(x.size, shape) || !AcceptsFormat(format) then Refuse(st)
    else
      st.(buffers := st.buffers[b := Buffer(p, x.base + shape.offset, shape)],
          pools := st.pools[p := x.(references := x.references + 1, buffers := [b] + x.buffers)])
  }

  function Unlink(st: State, b: BufferId): State
    requires b in st.buffers && st.buffers[b].pool in st.pools
  {
    var p := st.buffers[b].pool;
    var x := st.pools[p];
    st.(pools := st.pools[p := x.(buffers := Without(x.buffers, b))], buffers := st.buffers - {b})
  }

  function Apply(st: State, step: Step): State {
    if !Enabled(st, step) then st
    else
      match step
      case CreatePool(p, size, mapped) =>
        if size <= 0 || mapped.None? then Refuse(st)
        else
          st.(pools := st.pools[p := Pool(mapped.value, size, 1, [], true)],
              kernel := st.kernel[p := Mapping(mapped.value, size)], used := st.used + {p})
      case Resize(p, size, mapped) => ApplyResize(st, p, size, mapped)
      case DestroyPool(p) => PoolUnref(st.(pools := st.pools[p := st.pools[p].(resource := false)]), p)
      case CreateBuffer(p, b, shape, format) => ApplyCreateBuffer(st, p, b, shape, format)
      case DestroyStorage(b) => PoolUnref(Unlink(st, b), st.buffers[b].pool)
  }

  function Exec(steps: seq<Step>): State {
    if steps == [] then INITIAL else Apply(Exec(steps[..|steps| - 1]), steps[|steps| - 1])
  }

  /* ---------- invariant ---------- */

  function Holders(x: Pool): int {
    (if x.resource then 1 else 0) + |x.buffers|
  }

  /** `gap` is the number of references already given up by a holder that has not called pool_unref yet. */
  predicate PoolOk(st: State, p: PoolId, gap: int)
    requires p in st.pools
  {
    var x := st.pools[p];
    && 0 < x.size < TWO31
    && x.references == Holders(x) + gap && x.references > 0
    && NoDup(x.buffers)
    && (forall i {:trigger x.buffers[i]} :: 0 <= i < |x.buffers| ==>
          x.buffers[i] in st.buffers && st.buffers[x.buffers[i]].pool == p)
    && p in st.used && p in st.kernel && st.kernel[p] == Mapping(x.base, x.size)
  }

  /** The buffer points at its offset in the current mapping of a pool that lists it. */
  predicate BufferOk(st: State, b: BufferId)
    requires b in st.buffers
  {
    var x := st.buffers[b];
    && x.pool in st.pools && b in st.pools[x.pool].buffers
    && x.data == st.pools[x.pool].base + x.shape.offset
    && ShapeTyped(x.shape) && AcceptsShape(st.pools[x.pool].size, x.shape)
  }

  ghost predicate Good(st: State) {
    && (forall p {:trigger PoolOk(st, p, 0)} :: p in st.pools ==> PoolOk(st, p, 0))
    && GoodBuffers(st)
    && GoodLog(st)
  }

  ghost predicate GoodBuffers(st: State) {
    forall b {:trigger BufferOk(st, b)} :: b in st.buffers ==> BufferOk(st, b)
  }

  function Unmaps(log: seq<Event>, p: PoolId): nat {
    if log == [] then 0
    else Unmaps(log[..|log| - 1], p) + if log[|log| - 1].Unmapped? && log[|log| - 1].pool == p then 1 else 0
  }

  /** Every pool that went was unmapped once, whole; a live one never; nothing else stays mapped. */
  ghost predicate GoodLog(st: State) {
    && (forall p {:trigger Unmaps(st.log, p)} :: Unmaps(st.log, p) == if p in st.used && p !in st.pools then 1 else 0)
    && (forall i {:trigger st.log[i]} :: 0 <= i < |st.log| && st.log[i].Unmapped? ==> st.log[i].whole)
    && st.kernel.Keys == st.pools.Keys
  }

  lemma {:induction false} LogAppend(log: seq<Event>, e: Event, p: PoolId)
    ensures Unmaps(log + [e], p) == Unmaps(log, p) + if e.Unmapped? && e.pool == p then 1 else 0
  {
    assert (log + [e])[..|log + [e]| - 1] == log;
  }

  lemma {:induction false} RefuseGood(st: State)
    requires Good(st)
    ensures Good(Refuse(st))
  {
    var st' := Refuse(st);
    forall p | p in st'.pools
      ensures PoolOk(st', p, 0)
    {
      assert PoolOk(st, p, 0);
    }
    forall b | b in st'.buffers
      ensures BufferOk(st', b)
    {
      assert BufferOk(st, b);
    }
    forall p
      ensures Unmaps(st'.log, p) == if p in st'.used && p !in st'.pools then 1 else 0
    {
      LogAppend(st.log, Refused, p);
    }
  }

  lemma {:induction false} CreatePoolGood(st: State, p: PoolId, size: int, base: Address)
    requires Good(st) && p !in st.used && p !in st.pools && 0 < size < TWO31
    ensures Good(Apply(st, CreatePool(p, size, Some(base))))
  {
    var st' := Apply(st, CreatePool(p, size, Some(base)));
    forall q | q in st'.pools
      ensures PoolOk(st', q, 0)
    {
      assert q != p ==> PoolOk(st, q, 0);
    }
    forall b | b in st'.buffers
      ensures BufferOk(st', b)
    {
      assert BufferOk(st, b);
    }
    assert st'.log == st.log;
  }

  lemma {:induction false} ResizeGood(st: State, p: PoolId, size: int, base: Address)
    requires Good(st) && p in st.pools && st.pools[p].size < size < TWO31
    ensures Good(ApplyResize(st, p, size, Some(base)))
  {
    var st' := ApplyResize(st, p, size, Some(base));
    assert PoolOk(st, p, 0);
    forall q | q in st'.pools
      ensures PoolOk(st', q, 0)
    {
      assert PoolOk(st, q, 0);
    }
    forall b | b in st'.buffers
      ensures BufferOk(st', b)
    {
      assert BufferOk(st, b);
      ListedOnlyInOwnPool(st, p, b);
    }
    assert st'.log == st.log;
  }

  /** A buffer sits in the list of the pool it names and in no other. */
  lemma {:induction false} ListedOnlyInOwnPool(st: State, p: PoolId, b: BufferId)
    requires p in st.pools && PoolOk(st, p, 0) && b in st.buffers && BufferOk(st, b)
    ensures b in st.pools[p].buffers <==> st.buffers[b].pool == p
  {
    if b in st.pools[p].buffers {
      var i :| 0 <= i < |st.pools[p].buffers| && st.pools[p].buffers[i] == b;
    }
  }

  lemma {:induction false} CreateBufferGood(st: State, p: PoolId, b: BufferId, shape: Shape, format: nat)
    requires Good(st) && p in st.pools && b !in st.buffers && ShapeTyped(shape)
    requires AcceptsShape(st.pools[p].size, shape) && AcceptsFormat(format)
    ensures Good(ApplyCreateBuffer(st, p, b, shape, format))
  {
    var st' := ApplyCreateBuffer(st, p, b, shape, format);
    var list := st.pools[p].buffers;
    assert PoolOk(st, p, 0);
    assert b !in list;
    NoDupCons([b] + list);
    assert ([b] + list)[1..] == list;
    forall q | q in st'.pools
      ensures PoolOk(st', q, 0)
    {
      assert PoolOk(st, q, 0);
    }
    forall c | c in st'.buffers
      ensures BufferOk(st', c)
    {
      assert c != b ==> BufferOk(st, c);
    }
    assert st'.log == st.log && st'.pools.Keys == st.pools.Keys;
  }

  /** pool_unref after one holder of `p` has let go. */
  lemma {:induction false} PoolUnrefGood(st: State, p: PoolId)
    requires p in st.pools && PoolOk(st, p, 1) && GoodBuffers(st) && GoodLog(st)
    requires forall q {:trigger PoolOk(st, q, 0)} :: q in st.pools && q != p ==> PoolOk(st, q, 0)
    ensures Good(PoolUnref(st, p))
    ensures p in PoolUnref(st, p).pools <==> Holders(st.pools[p]) > 0
  {
    var st' := PoolUnref(st, p);
    forall q | q in st'.pools
      ensures PoolOk(st', q, 0)
    {
      assert q != p ==> PoolOk(st, q, 0);
    }
    forall b | b in st'.buffers
      ensures BufferOk(st', b)
    {
      assert BufferOk(st, b);
    }
    if st.pools[p].references == 1 {
      forall q
        ensures Unmaps(st'.log, q) == if q in st'.used && q !in st'.pools then 1 else 0
      {
        LogAppend(st.log, Unmapped(p, true), q);
      }
    }
  }

  lemma {:induction false} DestroyPoolGood(st: State, p: PoolId)
    requires Good(st) && p in st.pools && st.pools[p].resource
    ensures Good(Apply(st, DestroyPool(p)))
  {
    var st1 := st.(pools := st.pools[p := st.pools[p].(resource := false)]);
    forall q | q in st1.pools
      ensures PoolOk(st1, q, if q == p then 1 else 0)
    {
      assert PoolOk(st, q, 0);
    }
    forall b | b in st1.buffers
      ensures BufferOk(st1, b)
    {
      assert BufferOk(st, b);
    }
    assert st1.log == st.log && st1.pools.Keys == st.pools.Keys;
    PoolUnrefGood(st1, p);
  }

  lemma {:induction false} UnlinkGood(st: State, b: BufferId)
    requires Good(st) && b in st.buffers && st.buffers[b].pool in st.pools
    ensures
      var p, st1 := st.buffers[b].pool, Unlink(st, b);
      && PoolOk(st1, p, 1) && GoodBuffers(st1) && GoodLog(st1)
      && (forall q {:trigger PoolOk(st1, q, 0)} :: q in st1.pools && q != p ==> PoolOk(st1, q, 0))
  {
    var p, st1 := st.buffers[b].pool, Unlink(st, b);
    assert BufferOk(st, b);
    assert PoolOk(st, p, 0);
    var list := st.pools[p].buffers;
    WithoutIs(list, b);
    assert PoolOk(st1, p, 1) by {
      forall i | 0 <= i < |Without(list, b)|
        ensures Without(list, b)[i] in st1.buffers && st1.buffers[Without(list, b)[i]].pool == p
      {
        assert Without(list, b)[i] in list;
      }
    }
    forall q | q in st1.pools && q != p
      ensures PoolOk(st1, q, 0)
    {
      assert PoolOk(st, q, 0);
      ListedOnlyInOwnPool(st, q, b);
    }
    forall c | c in st1.buffers
      ensures BufferOk(st1, c)
    {
      assert BufferOk(st, c);
    }
    assert st1.log == st.log && st1.pools.Keys == st.pools.Keys;
  }

  lemma {:induction false} StepGood(st: State, step: Step)
    requires Good(st)
    ensures Good(Apply(st, step))
  {
    if Enabled(st, step) {
      match step
      case CreatePool(p, size, mapped) =>
        if size <= 0 || mapped.None? { RefuseGood(st); } else { CreatePoolGood(st, p, size, mapped.value); }
      case Resize(p, size, mapped) =>
        if size <= 0 || size <= st.pools[p].size || mapped.None? { RefuseGood(st); }
        else { ResizeGood(st, p, size, mapped.value); }
      case DestroyPool(p) => DestroyPoolGood(st, p);
      case CreateBuffer(p, b, shape, format) =>
        if !AcceptsShape(st.pools[p].size, shape) || !AcceptsFormat(format) { RefuseGood(st); }
        else { CreateBufferGood(st, p, b, shape, format); }
      case DestroyStorage(b) =>
        UnlinkGood(st, b);
        PoolUnrefGood(Unlink(st, b), st.buffers[b].pool);
    }
  }

  lemma {:induction false} RunGood(steps: seq<Step>)
    ensures Good(Exec(steps))
    decreases |steps|
  {
    if steps != [] {
      RunGood(steps[..|steps| - 1]);
      StepGood(Exec(steps[..|steps| - 1]), steps[|steps| - 1]);
    }
  }

  /* ---------- what every run guarantees ---------- */

  /**
    A live buffer's data is its offset in the kernel's current mapping of its
    pool, and every pixel byte lies in that mapping exactly when the row length
    does not overflow.
   */
  lemma {:induction false} BufferStaysMapped(steps: seq<Step>, b: BufferId)
    requires b in Exec(steps).buffers
    ensures
      var st := Exec(steps);
      var x := st.buffers[b];
      && x.pool in st.kernel && x.data == st.kernel[x.pool].base + x.shape.offset
      && (PixelsInside(st.kernel[x.pool].size, x.shape) <==> x.shape.width < 0x2000_0000)
  {
    RunGood(steps);
    var st := Exec(steps);
    assert BufferOk(st, b);
    var x := st.buffers[b];
    assert PoolOk(st, x.pool, 0);
    PixelsInsideIff(st.kernel[x.pool].size, x.shape);
  }

  /** A mapping lives exactly as long as someone holds its pool, and goes once and whole. */
  lemma {:induction false} PoolLivesWhileHeld(steps: seq<Step>, p: PoolId)
    requires p in Exec(steps).used
    ensures
      var st := Exec(steps);
      && (p in st.kernel <==> (p in st.pools && st.pools[p].resource) || exists b :: b in st.buffers && st.buffers[b].pool == p)
      && Unmaps(st.log, p) == (if p in st.kernel then 0 else 1)
      && (forall i :: 0 <= i < |st.log| && st.log[i].Unmapped? ==> st.log[i].whole)
  {
    RunGood(steps);
    var st := Exec(steps);
    if p in st.pools {
      assert PoolOk(st, p, 0);
      if !st.pools[p].resource {
        var b := st.pools[p].buffers[0];
        assert b in st.buffers && st.buffers[b].pool == p;
      }
    }
    forall b | b in st.buffers && st.buffers[b].pool == p
      ensures p in st.pools
    {
      assert BufferOk(st, b);
    }
  }
}
