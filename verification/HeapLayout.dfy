/**
 The block structure of the kernel heap (kernel/kmalloc.c) seen as a list of blocks in
 address order, and the laws of first-fit allocation with splitting and full coalescing.
 Addresses and sizes are in bytes; a block is an 8-byte header followed by its payload.
 */
module HeapLayout {
  const HEAP_SIZE: nat := 8 * 1024 * 1024
  const ALIGN: nat := 8
  const HDR_SIZE: nat := 8

  type word = x: int | 0 <= x < 0x1_0000_0000

  datatype Block = Block(size: nat, free: bool)

  function Span(l: seq<Block>): nat {
    if l == [] then 0 else HDR_SIZE + l[0].size + Span(l[1..])
  }

  function FreeBytes(l: seq<Block>): nat {
    if l == [] then 0 else (if l[0].free then l[0].size else 0) + FreeBytes(l[1..])
  }

  function LiveBytes(l: seq<Block>): nat {
    if l == [] then 0 else (if l[0].free then 0 else l[0].size) + LiveBytes(l[1..])
  }

  // The (payload address, payload size) pairs of the live blocks, the first block starting at `at`.
  function Live(l: seq<Block>, at: nat): set<(nat, nat)> {
    if l == [] then {}
    else (if l[0].free then {} else {(at + HDR_SIZE, l[0].size)}) + Live(l[1..], at + HDR_SIZE + l[0].size)
  }

  ghost predicate Sizes(l: seq<Block>) {
    forall i :: 0 <= i < |l| ==> l[i].size >= ALIGN && l[i].size % ALIGN == 0
  }

  ghost predicate NoFreePair(l: seq<Block>) {
    forall i :: 0 <= i < |l| - 1 ==> !(l[i].free && l[i + 1].free)
  }

  // What every reachable layout satisfies.
  ghost predicate Tiles(l: seq<Block>) {
    Span(l) == HEAP_SIZE && Sizes(l) && NoFreePair(l)
  }

  function Initial(): seq<Block> {
    [Block(HEAP_SIZE - HDR_SIZE, true)]
  }

  // The rounding at the head of kmalloc, in 32-bit arithmetic.
  function Rounded(n: word): (r: word)
    ensures r >= ALIGN && r % ALIGN == 0
  {
    var r := (n + ALIGN - 1) % 0x1_0000_0000 / ALIGN * ALIGN;
    if r < ALIGN then ALIGN else r
  }

  // A request is rounded up unless it is so large that the addition wraps.
  lemma RoundedIsEnough(n: word)
    ensures Rounded(n) >= n <==> n <= 0x1_0000_0000 - ALIGN
  {
  }

  lemma RoundingWraps()
    ensures Rounded(0xFFFF_FFFF) == 8
  {
  }

  // ---- Allocation ----

  predicate Fits(b: Block, size: nat) {
    b.free && b.size >= size
  }

  function FirstFit(l: seq<Block>, size: nat): (k: nat)
    ensures k <= |l| && (k < |l| ==> Fits(l[k], size))
    ensures forall i :: 0 <= i < k ==> !Fits(l[i], size)
  {
    if l == [] then 0
    else if Fits(l[0], size) then 0
    else
      var k := FirstFit(l[1..], size);
      assert forall i :: 1 <= i < 1 + k ==> l[i] == l[1..][i - 1];
      1 + k
  }

  function Carve(b: Block, size: nat): seq<Block>
    requires b.size >= size
  {
    if b.size >= size + HDR_SIZE + ALIGN
    then [Block(size, false), Block(b.size - size - HDR_SIZE, true)]
    else [Block(b.size, false)]
  }

  function Alloc(l: seq<Block>, size: nat): seq<Block> {
    var k := FirstFit(l, size);
    if k == |l| then l else l[..k] + Carve(l[k], size) + l[k + 1..]
  }

  // The payload address handed out, when there is one.
  function AllocAt(l: seq<Block>, size: nat): nat {
    Span(l[..FirstFit(l, size)]) + HDR_SIZE
  }

  // ---- Freeing ----

  function Coalesce(l: seq<Block>): seq<Block>
    decreases |l|
  {
    if |l| < 2 then l
    else if l[0].free && l[1].free then Coalesce([Block(l[0].size + HDR_SIZE + l[1].size, true)] + l[2..])
    else [l[0]] + Coalesce(l[1..])
  }

  function Release(l: seq<Block>, k: nat): seq<Block>
    requires k < |l|
  {
    Coalesce(l[k := Block(l[k].size, true)])
  }

  // ---- Sums and live sets over concatenation ----

  lemma {:induction false} SpanConcat(a: seq<Block>, b: seq<Block>)
    ensures Span(a + b) == Span(a) + Span(b)
    ensures FreeBytes(a + b) == FreeBytes(a) + FreeBytes(b)
    ensures LiveBytes(a + b) == LiveBytes(a) + LiveBytes(b)
  {
    if a == [] {
      assert a + b == b;
    } else {
      assert (a + b)[1..] == a[1..] + b;
      SpanConcat(a[1..], b);
    }
  }

  lemma {:induction false} LiveConcat(a: seq<Block>, b: seq<Block>, at: nat)
    ensures Live(a + b, at) == Live(a, at) + Live(b, at + Span(a))
    decreases |a|
  {
    if a == [] {
      assert a + b == b;
    } else {
      assert (a + b)[1..] == a[1..] + b;
      LiveConcat(a[1..], b, at + HDR_SIZE + a[0].size);
    }
  }

  lemma {:induction false} LiveRange(l: seq<Block>, at: nat, x: (nat, nat))
    requires x in Live(l, at)
    ensures at + HDR_SIZE <= x.0 && x.0 + x.1 <= at + Span(l)
    decreases |l|
  {
    if x in Live(l[1..], at + HDR_SIZE + l[0].size) {
      LiveRange(l[1..], at + HDR_SIZE + l[0].size, x);
    }
  }

  function LiveOf(b: Block, at: nat): set<(nat, nat)> {
    if b.free then {} else {(at + HDR_SIZE, b.size)}
  }

  lemma Single(b: Block, at: nat)
    ensures Span([b]) == HDR_SIZE + b.size && Live([b], at) == LiveOf(b, at)
  {
    assert [b][1..] == [];
  }

  // Splitting a list at k.
  lemma SpanAt(l: seq<Block>, k: nat)
    requires k < |l|
    ensures Span(l) == Span(l[..k]) + HDR_SIZE + l[k].size + Span(l[k + 1..])
  {
    hide Span;
    assert l == l[..k] + [l[k]] + l[k + 1..];
    SpanConcat(l[..k] + [l[k]], l[k + 1..]);
    SpanConcat(l[..k], [l[k]]);
    Single(l[k], 0);
  }

  lemma LiveAt(l: seq<Block>, k: nat)
    requires k < |l|
    ensures Live(l, 0) == Live(l[..k], 0) + LiveOf(l[k], Span(l[..k]))
                        + Live(l[k + 1..], Span(l[..k]) + HDR_SIZE + l[k].size)
  {
    hide Span, Live, LiveOf;
    assert l == l[..k] + [l[k]] + l[k + 1..];
    LiveConcat(l[..k] + [l[k]], l[k + 1..], 0);
    LiveConcat(l[..k], [l[k]], 0);
    SpanConcat(l[..k], [l[k]]);
    Single(l[k], Span(l[..k]));
  }

  // A live block lies wholly before, at, or wholly after block k.
  lemma LiveSides(l: seq<Block>, k: nat, x: (nat, nat))
    requires k < |l| && x in Live(l, 0)
    ensures x.0 + x.1 <= Span(l[..k]) || x in LiveOf(l[k], Span(l[..k]))
         || Span(l[..k]) + HDR_SIZE + l[k].size <= x.0 - HDR_SIZE
  {
    hide Span, Live, LiveOf;
    LiveAt(l, k);
    if x in Live(l[..k], 0) {
      LiveRange(l[..k], 0, x);
    } else if x in Live(l[k + 1..], Span(l[..k]) + HDR_SIZE + l[k].size) {
      LiveRange(l[k + 1..], Span(l[..k]) + HDR_SIZE + l[k].size, x);
    }
  }

  // Free bytes, live bytes and headers account for the whole arena.
  lemma {:induction false} Conservation(l: seq<Block>)
    ensures FreeBytes(l) + LiveBytes(l) + HDR_SIZE * |l| == Span(l)
  {
    if l != [] { Conservation(l[1..]); }
  }

  // ---- What every step keeps ----

  lemma AllocKeepsTiles(l: seq<Block>, size: nat)
    requires Tiles(l) && size >= ALIGN && size % ALIGN == 0
    ensures Tiles(Alloc(l, size))
  {
    hide Span, FirstFit, NoFreePair, Sizes, Carve;
    var k := FirstFit(l, size);
    if k < |l| {
      var a, c, z := l[..k], Carve(l[k], size), l[k + 1..];
      SpanAt(l, k);
      SpanConcat(a + c, z);
      SpanConcat(a, c);
      CarveSpan(l[k], size, 0);
      CarveSizes(l, k, size);
      CarveSeparates(l, k, size);
    }
  }

  lemma CarveSizes(l: seq<Block>, k: nat, size: nat)
    requires Sizes(l) && k < |l| && Fits(l[k], size) && size >= ALIGN && size % ALIGN == 0
    ensures Sizes(l[..k] + Carve(l[k], size) + l[k + 1..])
  {
    var c := Carve(l[k], size);
    var r := l[..k] + c + l[k + 1..];
    assert l[k].size % ALIGN == 0;
    forall i | 0 <= i < |r| ensures r[i].size >= ALIGN && r[i].size % ALIGN == 0 {
      if i >= k + |c| { assert r[i] == l[i - |c| + 1]; }
    }
  }

  lemma CarveSeparates(l: seq<Block>, k: nat, size: nat)
    requires NoFreePair(l) && k < |l| && Fits(l[k], size)
    ensures NoFreePair(l[..k] + Carve(l[k], size) + l[k + 1..])
  {
    var c := Carve(l[k], size);
    var r := l[..k] + c + l[k + 1..];
    forall i | 0 <= i < |r| - 1 ensures !(r[i].free && r[i + 1].free) {
      if i + 1 < k {
        assert r[i] == l[i] && r[i + 1] == l[i + 1];
      } else if i >= k + |c| {
        assert r[i] == l[i - |c| + 1] && r[i + 1] == l[i - |c| + 2];
      } else if i == k + |c| - 1 {
        assert r[i + 1] == l[k + 1];
      }
    }
  }

  function Given(b: Block, size: nat): nat {
    if b.size >= size + HDR_SIZE + ALIGN then size else b.size
  }

  lemma CarveSpan(b: Block, size: nat, at: nat)
    requires b.size >= size
    ensures Span(Carve(b, size)) == HDR_SIZE + b.size
    ensures Live(Carve(b, size), at) == {(at + HDR_SIZE, Given(b, size))}
  {
    hide Span, Live;
    var c := Carve(b, size);
    Single(c[0], at);
    if |c| == 2 {
      assert c == [c[0]] + [c[1]];
      SpanConcat([c[0]], [c[1]]);
      LiveConcat([c[0]], [c[1]], at);
      Single(c[1], at + HDR_SIZE + size);
    } else {
      assert c == [c[0]];
    }
  }

  // A successful allocation adds exactly one live block, at least as large as asked for.
  lemma AllocAddsOne(l: seq<Block>, size: nat)
    requires FirstFit(l, size) < |l|
    ensures var given := Given(l[FirstFit(l, size)], size);
      && size <= given < size + HDR_SIZE + ALIGN
      && Live(Alloc(l, size), 0) == Live(l, 0) + {(AllocAt(l, size), given)}
  {
    hide Span, Live, FirstFit;
    var k := FirstFit(l, size);
    var a, c, z := l[..k], Carve(l[k], size), l[k + 1..];
    LiveAt(l, k);
    CarveSpan(l[k], size, Span(a));
    LiveConcat(a + c, z, 0);
    LiveConcat(a, c, 0);
    SpanConcat(a, c);
  }

  // The new block overlaps no block that was live before.
  lemma AllocIsDisjoint(l: seq<Block>, size: nat, x: (nat, nat))
    requires FirstFit(l, size) < |l| && x in Live(l, 0)
    ensures x.0 + x.1 + HDR_SIZE <= AllocAt(l, size)
         || AllocAt(l, size) + Given(l[FirstFit(l, size)], size) + HDR_SIZE <= x.0
  {
    LiveSides(l, FirstFit(l, size), x);
  }

  lemma {:induction false} CoalesceKeeps(l: seq<Block>, at: nat)
    ensures Span(Coalesce(l)) == Span(l) && Live(Coalesce(l), at) == Live(l, at)
    decreases |l|
  {
    if |l| < 2 {
    } else if l[0].free && l[1].free {
      var m := [Block(l[0].size + HDR_SIZE + l[1].size, true)] + l[2..];
      assert m[1..] == l[2..] && l[1..][1..] == l[2..];
      CoalesceKeeps(m, at);
    } else {
      CoalesceKeeps(l[1..], at + HDR_SIZE + l[0].size);
      var c := [l[0]] + Coalesce(l[1..]);
      assert c[1..] == Coalesce(l[1..]);
    }
  }

  lemma {:induction false} CoalesceSizes(l: seq<Block>)
    requires Sizes(l)
    ensures Sizes(Coalesce(l))
    decreases |l|
  {
    if |l| < 2 {
    } else if l[0].free && l[1].free {
      CoalesceSizes([Block(l[0].size + HDR_SIZE + l[1].size, true)] + l[2..]);
    } else {
      CoalesceSizes(l[1..]);
    }
  }

  // After the pass no two neighbours are both free, and the first block is free iff it was.
  lemma {:induction false} CoalesceSeparates(l: seq<Block>)
    ensures NoFreePair(Coalesce(l))
    ensures l != [] ==> Coalesce(l) != [] && Coalesce(l)[0].free == l[0].free
    decreases |l|
  {
    if |l| < 2 {
    } else if l[0].free && l[1].free {
      CoalesceSeparates([Block(l[0].size + HDR_SIZE + l[1].size, true)] + l[2..]);
    } else {
      CoalesceSeparates(l[1..]);
      var r := Coalesce(l[1..]);
      forall i | 0 <= i < |r| ensures !(([l[0]] + r)[i].free && r[i].free) {
        if i > 0 { assert ([l[0]] + r)[i] == r[i - 1]; }
      }
    }
  }

  // ---- The coalescing walk, one iteration at a time ----

  function Merged(l: seq<Block>, k: nat): seq<Block>
    requires k + 1 < |l|
  {
    l[..k] + [Block(l[k].size + HDR_SIZE + l[k + 1].size, true)] + l[k + 2..]
  }

  lemma SameSpan(a: seq<Block>, p: seq<Block>, q: seq<Block>, z: seq<Block>)
    requires Span(p) == Span(q) && Live(p, Span(a)) == Live(q, Span(a))
    ensures Span(a + p + z) == Span(a + q + z) && Live(a + p + z, 0) == Live(a + q + z, 0)
  {
    hide Span, Live;
    SpanConcat(a + p, z);
    SpanConcat(a + q, z);
    SpanConcat(a, p);
    SpanConcat(a, q);
    LiveConcat(a + p, z, 0);
    LiveConcat(a + q, z, 0);
    LiveConcat(a, p, 0);
    LiveConcat(a, q, 0);
  }

  lemma MergeStep(l: seq<Block>, k: nat)
    requires k + 1 < |l| && l[k].free && l[k + 1].free && Sizes(l)
    ensures var m := Merged(l, k);
      && Sizes(m) && Span(m) == Span(l) && Live(m, 0) == Live(l, 0) && |m| == |l| - 1
      && m[..k] == l[..k] && Coalesce(m[k..]) == Coalesce(l[k..])
    ensures l[k].size + HDR_SIZE + l[k + 1].size <= Span(l)
  {
    hide Span, Live;
    var m := Merged(l, k);
    SpanAt(m, k);
    var p, q := [l[k]] + [l[k + 1]], [m[k]];
    assert l == l[..k] + p + l[k + 2..] && m == l[..k] + q + l[k + 2..];
    var at := Span(l[..k]);
    Single(l[k], at);
    Single(l[k + 1], at + HDR_SIZE + l[k].size);
    Single(m[k], at);
    SpanConcat([l[k]], [l[k + 1]]);
    LiveConcat([l[k]], [l[k + 1]], at);
    SameSpan(l[..k], p, q, l[k + 2..]);
    MergeCoalesces(l, k);
    forall i | 0 <= i < |m| ensures m[i].size >= ALIGN && m[i].size % ALIGN == 0 {
      if i > k { assert m[i] == l[i + 1]; }
    }
  }

  lemma MergeCoalesces(l: seq<Block>, k: nat)
    requires k + 1 < |l| && l[k].free && l[k + 1].free
    ensures Coalesce(Merged(l, k)[k..]) == Coalesce(l[k..])
  {
    assert Merged(l, k)[k..] == [Merged(l, k)[k]] + l[k..][2..];
  }

  lemma AdvanceStep(l: seq<Block>, k: nat)
    requires k < |l| && !(k + 1 < |l| && l[k].free && l[k + 1].free)
    ensures l[..k + 1] + Coalesce(l[k + 1..]) == l[..k] + Coalesce(l[k..])
  {
    var t := l[k..];
    assert t[1..] == l[k + 1..];
    assert Coalesce(t) == [l[k]] + Coalesce(l[k + 1..]);
    assert l[..k + 1] == l[..k] + [l[k]];
  }

  lemma ReleaseKeepsTiles(l: seq<Block>, k: nat)
    requires Tiles(l) && k < |l|
    ensures Tiles(Release(l, k))
  {
    hide Span, Coalesce;
    var m := l[k := Block(l[k].size, true)];
    SpanAt(l, k);
    SpanAt(m, k);
    assert m[..k] == l[..k] && m[k + 1..] == l[k + 1..];
    CoalesceKeeps(m, 0);
    CoalesceSizes(m);
    CoalesceSeparates(m);
  }

  // Freeing removes exactly that block from the live set.
  lemma ReleaseRemovesOne(l: seq<Block>, k: nat)
    requires k < |l| && !l[k].free
    ensures Live(Release(l, k), 0) == Live(l, 0) - {(Span(l[..k]) + HDR_SIZE, l[k].size)}
  {
    hide Span, Coalesce, Live;
    var m := l[k := Block(l[k].size, true)];
    var x, y := Span(l[..k]), Span(l[..k]) + HDR_SIZE + l[k].size;
    assert m[..k] == l[..k] && m[k + 1..] == l[k + 1..];
    LiveAt(l, k);
    LiveAt(m, k);
    CoalesceKeeps(m, 0);
    if (x + HDR_SIZE, l[k].size) in Live(l[..k], 0) { LiveRange(l[..k], 0, (x + HDR_SIZE, l[k].size)); }
    if (x + HDR_SIZE, l[k].size) in Live(l[k + 1..], y) { LiveRange(l[k + 1..], y, (x + HDR_SIZE, l[k].size)); }
  }

  // ---- Completeness ----

  // From s on, a header and `size` bytes fit in the arena without touching a live block or its header.
  ghost predicate Gap(l: seq<Block>, s: nat, size: nat) {
    s + HDR_SIZE + size <= HEAP_SIZE
    && forall x :: x in Live(l, 0) ==> s + HDR_SIZE + size <= x.0 - HDR_SIZE || x.0 + x.1 <= s
  }

  lemma {:induction false} GapIsOneBlock(l: seq<Block>, at: nat, s: nat, n: nat) returns (k: nat)
    requires NoFreePair(l) && n > 0 && at <= s && s + n <= at + Span(l)
    requires forall x :: x in Live(l, at) ==> s + n <= x.0 - HDR_SIZE || x.0 + x.1 <= s
    ensures k < |l| && l[k].free && l[k].size + HDR_SIZE >= n
    decreases |l|
  {
    var end := at + HDR_SIZE + l[0].size;
    if s >= end {
      k := GapIsOneBlock(l[1..], end, s, n);
      k := k + 1;
    } else if s + n <= end {
      k := 0;
      assert l[0].free || (at + HDR_SIZE, l[0].size) in Live(l, at);
    } else {
      assert l[0].free || (at + HDR_SIZE, l[0].size) in Live(l, at);
      assert |l| > 1 && !l[1].free;
      assert l[1..][0] == l[1];
      assert (end + HDR_SIZE, l[1].size) in Live(l[1..], end);
      assert false;
    }
  }

  // kmalloc fails exactly when no gap between live blocks holds the request and a header.
  lemma AllocFailsIffNoGap(l: seq<Block>, size: nat)
    requires Tiles(l)
    ensures FirstFit(l, size) == |l| <==> !exists s :: Gap(l, s, size)
  {
    var k := FirstFit(l, size);
    if k < |l| {
      var s := Span(l[..k]);
      SpanAt(l, k);
      forall x | x in Live(l, 0) ensures s + HDR_SIZE + size <= x.0 - HDR_SIZE || x.0 + x.1 <= s {
        LiveSides(l, k, x);
      }
      assert Gap(l, s, size);
    } else if s :| Gap(l, s, size) {
      var i := GapIsOneBlock(l, 0, s, HDR_SIZE + size);
      assert Fits(l[i], size);
    }
  }

  // ---- Whole runs ----

  datatype Op = Malloc(n: word) | Free(addr: nat)

  // The index of the live block whose payload starts at addr, or |l|.
  function Find(l: seq<Block>, at: nat, addr: nat): (k: nat)
    ensures k <= |l|
    ensures k < |l| ==> !l[k].free && at + Span(l[..k]) + HDR_SIZE == addr
  {
    if l == [] then 0
    else if !l[0].free && at + HDR_SIZE == addr then assert l[..0] == []; 0
    else
      var k := Find(l[1..], at + HDR_SIZE + l[0].size, addr);
      assert k < |l[1..]| ==> l[..k + 1] == [l[0]] + l[1..][..k];
      assert k < |l[1..]| ==> l[..k + 1][1..] == l[1..][..k];
      k + 1
  }

  lemma {:induction false} FindsLive(l: seq<Block>, at: nat, addr: nat, size: nat)
    requires (addr, size) in Live(l, at)
    ensures Find(l, at, addr) < |l| && l[Find(l, at, addr)].size == size
    decreases |l|
  {
    if !l[0].free && at + HDR_SIZE == addr {
      if (addr, size) in Live(l[1..], at + HDR_SIZE + l[0].size) {
        LiveRange(l[1..], at + HDR_SIZE + l[0].size, (addr, size));
      }
    } else {
      FindsLive(l[1..], at + HDR_SIZE + l[0].size, addr, size);
      assert l[1 + Find(l[1..], at + HDR_SIZE + l[0].size, addr)] == l[1..][Find(l[1..], at + HDR_SIZE + l[0].size, addr)];
    }
  }

  function Step(l: seq<Block>, op: Op): seq<Block> {
    match op
    case Malloc(n) => if n == 0 then l else Alloc(l, Rounded(n))
    case Free(addr) =>
      var k := Find(l, 0, addr);
      if k < |l| then Release(l, k) else l
  }

  function Run(ops: seq<Op>): seq<Block> {
    if ops == [] then Initial() else Step(Run(ops[..|ops| - 1]), ops[|ops| - 1])
  }

  lemma RunConserves(ops: seq<Op>)
    ensures FreeBytes(Run(ops)) + LiveBytes(Run(ops)) + HDR_SIZE * |Run(ops)| == HEAP_SIZE
  {
    RunKeepsTiles(ops);
    Conservation(Run(ops));
  }

  lemma {:induction false} RunKeepsTiles(ops: seq<Op>)
    ensures Tiles(Run(ops))
  {
    if ops == [] {
      assert Initial()[1..] == [];
    } else {
      var l, op := Run(ops[..|ops| - 1]), ops[|ops| - 1];
      RunKeepsTiles(ops[..|ops| - 1]);
      match op
      case Malloc(n) =>
        if n != 0 { AllocKeepsTiles(l, Rounded(n)); }
      case Free(addr) =>
        if Find(l, 0, addr) < |l| { ReleaseKeepsTiles(l, Find(l, 0, addr)); }
    }
  }

  // Once everything has been freed, in whatever order, the arena is one free block again.
  lemma AllFreedIsInitial(ops: seq<Op>)
    requires Live(Run(ops), 0) == {}
    ensures Run(ops) == Initial()
  {
    var l := Run(ops);
    RunKeepsTiles(ops);
    assert |l| >= 2 ==> !(l[0].free && l[0 + 1].free);
    forall i | 0 <= i < |l| ensures l[i].free {
      LiveAt(l, i);
      assert LiveOf(l[i], Span(l[..i])) <= Live(l, 0);
    }
    assert l == [l[0]];
    Single(l[0], 0);
  }

  // Distinct live payloads never overlap, a header apart at least.
  lemma {:induction false} LiveDisjoint(l: seq<Block>, at: nat, x: (nat, nat), y: (nat, nat))
    requires x in Live(l, at) && y in Live(l, at) && x != y
    ensures x.0 + x.1 + HDR_SIZE <= y.0 || y.0 + y.1 + HDR_SIZE <= x.0
    decreases |l|
  {
    var end := at + HDR_SIZE + l[0].size;
    if x in Live(l[1..], end) { LiveRange(l[1..], end, x); }
    if y in Live(l[1..], end) { LiveRange(l[1..], end, y); }
    if x in Live(l[1..], end) && y in Live(l[1..], end) {
      LiveDisjoint(l[1..], end, x, y);
    }
  }

  lemma {:induction false} LiveAligned(l: seq<Block>, at: nat, x: (nat, nat))
    requires Sizes(l) && at % ALIGN == 0 && x in Live(l, at)
    ensures x.0 % ALIGN == 0 && x.1 % ALIGN == 0
    decreases |l|
  {
    var end := at + HDR_SIZE + l[0].size;
    if x in Live(l[1..], end) {
      assert Sizes(l[1..]) by { assert forall i :: 0 <= i < |l| - 1 ==> l[1..][i] == l[i + 1]; }
      LiveAligned(l[1..], end, x);
    }
  }
}
