/** The pools as the request handlers change them (wayland-host/src/buffer_shm.c:97-280). */
module ShmPoolRuntime {
  import opened Common
  import opened ShmPool

  class PoolHost {
    var pools: map<PoolId, Pool>
    var buffers: map<BufferId, Buffer>
    var kernel: map<PoolId, Mapping>  // kept by mmap, mremap and munmap
    var log: seq<Event>
    ghost var used: set<PoolId>
    ghost var history: seq<Step>

    ghost function Now(): State
      reads this
    {
      State(pools, buffers, kernel, used, log)
    }

    ghost predicate Valid()
      reads this
    {
      Now() == Exec(history)
    }

    constructor ()
      ensures Valid() && history == []
    {
      pools, buffers, kernel, log, used, history := map[], map[], map[], [], {}, [];
    }

    lemma Recorded(before: State, steps: seq<Step>, step: Step)
      requires before == Exec(steps) && Now() == Apply(before, step)
      ensures Now() == Exec(steps + [step])
    {
      assert (steps + [step])[..|steps + [step]| - 1] == steps;
    }

    /** pool_unref */
    method PoolUnref(p: PoolId)
      requires p in pools
      modifies this`pools, this`kernel, this`log
      ensures Now() == ShmPool.PoolUnref(old(Now()), p)
    {
      var x := pools[p];
      x := x.(references := x.references - 1);
      if x.references != 0 {
        pools := pools[p := x];
        return;
      }
      log := log + [Unmapped(p, p in kernel && kernel[p] == Mapping(x.base, x.size))];
      kernel := kernel - {p};
      pools := pools - {p};
    }

    /** shm_create_pool; `mapped` is what mmap answers. */
    method CreatePool(p: PoolId, size: int, mapped: Option<Address>) returns (ok: bool)
      requires Valid() && p !in used && p !in pools && Int32(size)
      modifies this
      ensures Valid() && history == old(history) + [Step.CreatePool(p, size, mapped)]
      ensures ok <==> size > 0 && mapped.Some?
      ensures ok ==> p in pools && kernel[p] == Mapping(mapped.value, size)
    {
      ok := false;
      if size <= 0 || mapped.None? {
        log := log + [Refused];
      } else {
        kernel := kernel[p := Mapping(mapped.value, size)];
        pools := pools[p := Pool(mapped.value, size, 1, [], true)];
        used := used + {p};
        ok := true;
      }
      Recorded(old(Now()), history, Step.CreatePool(p, size, mapped));
      history := history + [Step.CreatePool(p, size, mapped)];
    }

    /** The loop at the end of pool_resize. */
    method RepointBuffers(ids: seq<BufferId>, base: Address)
      requires forall b :: b in ids ==> b in buffers
      modifies this`buffers
      ensures buffers == Rebase(old(buffers), ids, base)
    {
      var i := 0;
      while i < |ids|
        invariant i <= |ids|
        invariant buffers == Rebase(old(buffers), ids[..i], base)
      {
        var b := ids[i];
        RebaseOne(old(buffers), ids, i, base);
        buffers := buffers[b := buffers[b].(data := base + buffers[b].shape.offset)];
        i := i + 1;
      }
      assert ids[..i] == ids;
    }

    /** pool_resize; `mapped` is what mremap answers. Buffers are repointed one by one. */
    method Resize(p: PoolId, size: int, mapped: Option<Address>) returns (ok: bool)
      requires Valid() && p in pools && pools[p].resource && Int32(size)
      modifies this
      ensures Valid() && history == old(history) + [Step.Resize(p, size, mapped)]
      ensures ok <==> size > old(pools)[p].size && size > 0 && mapped.Some?
    {
      ok := false;
      var x := pools[p];
      RunGood(history);
      assert PoolOk(Now(), p, 0);
      if size <= 0 || size <= x.size || mapped.None? {
        log := log + [Refused];
      } else {
        kernel := kernel[p := Mapping(mapped.value, size)];
        pools := pools[p := x.(base := mapped.value, size := size)];
        RepointBuffers(x.buffers, mapped.value);
        ok := true;
      }
      Recorded(old(Now()), history, Step.Resize(p, size, mapped));
      history := history + [Step.Resize(p, size, mapped)];
    }

    /** pool_create_buffer */
    method CreateBuffer(p: PoolId, b: BufferId, shape: Shape, format: nat) returns (ok: bool)
      requires Valid() && p in pools && pools[p].resource && b !in buffers && ShapeTyped(shape)
      modifies this
      ensures Valid() && history == old(history) + [Step.CreateBuffer(p, b, shape, format)]
      ensures ok <==> AcceptsFormat(format)
                      && 0 < shape.width && 0 < shape.height && 0 <= shape.offset && TimesFour(shape.width) <= shape.stride
                      && 0 <= shape.offset + shape.stride * shape.height <= old(pools)[p].size
      ensures ok <==> b in buffers
    {
      ok := false;
      var x := pools[p];
      RunGood(history);
      assert PoolOk(Now(), p, 0);
      AcceptsIff(x.size, shape);
      if shape.width <= 0 || shape.height <= 0 || shape.stride < TimesFour(shape.width) || shape.offset < 0
         || ByteEnd(shape) > x.size || (format != XRGB8888 && format != ARGB8888) {
        log := log + [Refused];
      } else {
        buffers := buffers[b := Buffer(p, x.base + shape.offset, shape)];
        pools := pools[p := x.(references := x.references + 1, buffers := [b] + x.buffers)];
        ok := true;
      }
      Recorded(old(Now()), history, Step.CreateBuffer(p, b, shape, format));
      history := history + [Step.CreateBuffer(p, b, shape, format)];
    }

    /** pool_resource_destroy */
    method DestroyPool(p: PoolId)
      requires Valid() && p in pools && pools[p].resource
      modifies this
      ensures Valid() && history == old(history) + [Step.DestroyPool(p)]
    {
      pools := pools[p := pools[p].(resource := false)];
      PoolUnref(p);
      Recorded(old(Now()), history, Step.DestroyPool(p));
      history := history + [Step.DestroyPool(p)];
    }

    /** trierarch_buffer_destroy_storage of a pool buffer; its pool is always still there. */
    method DestroyStorage(b: BufferId)
      requires Valid() && b in buffers
      modifies this
      ensures Valid() && history == old(history) + [Step.DestroyStorage(b)]
      ensures buffers == old(buffers) - {b}
    {
      RunGood(history);
      assert BufferOk(Now(), b);
      var p := buffers[b].pool;
      pools := pools[p := pools[p].(buffers := Without(pools[p].buffers, b))];
      buffers := buffers - {b};
      PoolUnref(p);
      Recorded(old(Now()), history, Step.DestroyStorage(b));
      history := history + [Step.DestroyStorage(b)];
    }
  }

  lemma {:induction false} RebaseOne(buffers: map<BufferId, Buffer>, ids: seq<BufferId>, i: nat, base: Address)
    requires i < |ids| && ids[i] in buffers
    ensures
      var part := Rebase(buffers, ids[..i], base);
      Rebase(buffers, ids[..i + 1], base) == part[ids[i] := part[ids[i]].(data := base + part[ids[i]].shape.offset)]
  {
    assert ids[..i + 1] == ids[..i] + [ids[i]];
  }
}

/** The CPU upload of a buffer whose rows may be padded (wayland-host/src/renderer.c:646-669). */
module PixelUpload {
  import opened ShmPool

  type byte = bv8

  /** `length` bytes of `a` from `i` on are those of `b` from `j` on. */
  predicate SameBytes(a: seq<byte>, i: int, b: seq<byte>, j: int, length: int) {
    && 0 <= i && 0 <= j && 0 <= length && i + length <= |a| && j + length <= |b|
    && a[i..i + length] == b[j..j + length]
  }

  /** memcpy */
  method Copy(source: array<byte>, from: nat, target: array<byte>, to: nat, length: nat)
    requires source != target && from + length <= source.Length && to + length <= target.Length
    modifies target
    ensures SameBytes(target[..], to, source[..], from, length)
    ensures target[..to] == old(target[..to]) && target[to + length..] == old(target[to + length..])
  {
    var i := 0;
    while i < length
      invariant i <= length
      invariant target[to..to + i] == source[from..from + i]
      invariant target[..to] == old(target[..to]) && target[to + length..] == old(target[to + length..])
    {
      target[to + i] := source[from + i];
      i := i + 1;
    }
    assert target[..][to..to + length] == target[to..to + length];
    assert source[..][from..from + length] == source[from..from + length];
  }

  /** The image at `start`, rows `packedStride` apart, shows the same rows as the buffer. */
  ghost predicate SameRows(pixels: seq<byte>, start: int, length: int, mem: seq<byte>, x: Shape, rows: int) {
    forall row {:trigger RowAt(start, row, length)} :: 0 <= row < rows ==>
      SameBytes(pixels, RowAt(start, row, length), mem, RowAt(x.offset, row, x.stride), length)
  }

  function RowAt(start: int, row: int, stride: int): int {
    start + row * stride
  }

  lemma {:induction false} KeepRows(before: seq<byte>, after: seq<byte>, length: int, mem: seq<byte>, x: Shape, rows: int)
    requires 0 <= rows && 0 <= length && |before| == |after| && SameRows(before, 0, length, mem, x, rows)
    requires rows * length <= |before| && before[..rows * length] == after[..rows * length]
    ensures SameRows(after, 0, length, mem, x, rows)
  {
    forall row | 0 <= row < rows
      ensures SameBytes(after, RowAt(0, row, length), mem, RowAt(x.offset, row, x.stride), length)
    {
      var i := RowAt(0, row, length);
      RowInside(row, rows, length);
      assert SameBytes(before, i, mem, RowAt(x.offset, row, x.stride), length);
      assert after[i..i + length] == after[..rows * length][i..i + length];
      assert before[i..i + length] == before[..rows * length][i..i + length];
    }
  }

  /** What the texture upload reads: width * height pixels of four bytes. */
  function BytesRead(x: Shape): int {
    (4 * x.width) * x.height
  }

  lemma {:induction false} MoreRows(a: int, b: int, height: int)
    requires 0 < height
    ensures a < b ==> a * height < b * height
    ensures 0 <= a ==> a <= a * height
  {
    if a < b {
      PositiveProduct(b - a, height);
      assert (b - a) * height == b * height - a * height;
    }
    if 0 <= a {
      ProductNonNegative(a, height - 1);
      assert a * (height - 1) == a * height - a;
    }
  }

  /**
    The bytes handed to the texture upload: the pool's own when the computed
    row length is the stride, else a packed copy. `ok` is false when there is
    no copy: malloc failed, or was asked for a negative row length, which is
    more memory than there is. Whichever is taken, the upload stays within it
    exactly when the row length did not overflow, and then reads the buffer's
    rows one after the other.
   */
  method UploadPixels(mem: array<byte>, x: Shape, allocates: bool)
    returns (ok: bool, pixels: array<byte>, start: nat)
    requires 0 < mem.Length < TWO31 && ShapeTyped(x) && AcceptsShape(mem.Length, x)
    ensures ok <==> x.stride == TimesFour(x.width) || (allocates && TimesFour(x.width) >= 0)
    ensures ok ==> (start + BytesRead(x) <= pixels.Length <==> x.width < 0x2000_0000)
    ensures ok && x.width < 0x2000_0000 ==> SameRows(pixels[..], start, 4 * x.width, mem[..], x, x.height)
  {
    ok, pixels, start := true, mem, x.offset;
    var packedStride := TimesFour(x.width);
    AcceptsIff(mem.Length, x);
    TimesFourIs(x.width);
    if x.stride == packedStride {
      InPlace(mem[..], x);
      return;
    }
    if !allocates || packedStride < 0 {
      ok := false;
      return;
    }
    pixels := Pack(mem, x, packedStride);
    start := 0;
    MoreRows(packedStride, 4 * x.width, x.height);
  }

  lemma {:induction false} InPlace(mem: seq<byte>, x: Shape)
    requires 0 < |mem| < TWO31 && ShapeTyped(x) && AcceptsShape(|mem|, x) && x.stride == TimesFour(x.width)
    ensures x.offset + BytesRead(x) <= |mem| <==> x.width < 0x2000_0000
    ensures x.width < 0x2000_0000 ==> SameRows(mem, x.offset, 4 * x.width, mem, x, x.height)
  {
    AcceptsIff(|mem|, x);
    TimesFourIs(x.width);
    if x.width < 0x2000_0000 {
      forall row | 0 <= row < x.height
        ensures SameBytes(mem, RowAt(x.offset, row, 4 * x.width), mem, RowAt(x.offset, row, x.stride), 4 * x.width)
      {
        RowInside(row, x.height, x.stride);
        assert x.height * x.stride == x.stride * x.height;
      }
    } else {
      MoreRows(4 * x.width, 4 * x.width, x.height);
    }
  }

  /** The loop that drops the padding. */
  method Pack(mem: array<byte>, x: Shape, packedStride: nat) returns (packed: array<byte>)
    requires 0 <= x.offset && 0 <= x.height && packedStride <= x.stride && x.offset + x.stride * x.height <= mem.Length
    ensures packed.Length == packedStride * x.height
    ensures SameRows(packed[..], 0, packedStride, mem[..], x, x.height)
  {
    ProductNonNegative(packedStride, x.height);
    packed := new byte[packedStride * x.height];
    var row := 0;
    while row < x.height
      invariant 0 <= row <= x.height
      invariant SameRows(packed[..], 0, packedStride, mem[..], x, row)
    {
      PackRow(mem, x, packedStride, packed, row);
      row := row + 1;
    }
  }

  method PackRow(mem: array<byte>, x: Shape, packedStride: nat, packed: array<byte>, row: nat)
    requires mem != packed && 0 <= x.offset && row < x.height && packedStride <= x.stride
    requires x.offset + x.stride * x.height <= mem.Length && packed.Length == packedStride * x.height
    requires SameRows(packed[..], 0, packedStride, mem[..], x, row)
    modifies packed
    ensures SameRows(packed[..], 0, packedStride, mem[..], x, row + 1)
  {
    RowInside(row, x.height, x.stride);
    RowInside(row, x.height, packedStride);
    assert x.height * x.stride == x.stride * x.height && x.height * packedStride == packedStride * x.height;
    var from, to := x.offset + row * x.stride, row * packedStride;
    ghost var before := packed[..];
    Copy(mem, from, packed, to, packedStride);
    assert packed[..][..to] == packed[..to] && before[..to] == old(packed[..to]);
    KeepRows(before, packed[..], packedStride, mem[..], x, row);
    assert RowAt(0, row, packedStride) == to && RowAt(x.offset, row, x.stride) == from;
  }

  lemma {:induction false} ProductNonNegative(a: int, b: int)
    requires 0 <= a && 0 <= b
    ensures 0 <= a * b
  {
  }
}
