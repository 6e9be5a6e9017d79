/**
 The allocator of kernel/kmalloc.c over one array of 32-bit words that holds the block
 headers and the payloads alike.  Pointers handed out are byte offsets from the start of
 g_heap; the walk over headers counts in words.
 */
module Kmalloc {
  import opened HeapLayout

  const HEAP_WORDS: nat := HEAP_SIZE / 4
  const HDR_WORDS: nat := 2
  const MAGIC_FREE: word := 0xF2EE_1234
  const MAGIC_USED: word := 0xA11C_A1ED

  datatype Ptr = Null | At(offset: int)

  function Magic(b: Block): word {
    if b.free then MAGIC_FREE else MAGIC_USED
  }

  function Words(l: seq<Block>): nat {
    if l == [] then 0 else HDR_WORDS + l[0].size / 4 + Words(l[1..])
  }

  // The words from index w on hold exactly the headers of these blocks.
  ghost predicate Holds(h: seq<word>, w: nat, l: seq<Block>)
    decreases |l|
  {
    l == [] ||
    (&& w + HDR_WORDS + l[0].size / 4 <= |h|
     && h[w] == l[0].size
     && h[w + 1] == Magic(l[0])
     && Holds(h, w + HDR_WORDS + l[0].size / 4, l[1..]))
  }

  lemma Quarter(n: nat)
    requires n % ALIGN == 0
    ensures 4 * (n / 4) == n
  {
  }

  lemma {:induction false} WordsAreBytes(l: seq<Block>)
    requires Sizes(l)
    ensures 4 * Words(l) == Span(l)
  {
    if l != [] {
      assert Sizes(l[1..]) by { assert forall i :: 0 <= i < |l| - 1 ==> l[1..][i] == l[i + 1]; }
      WordsAreBytes(l[1..]);
      Quarter(l[0].size);
    }
  }

  lemma {:induction false} WordsConcat(a: seq<Block>, b: seq<Block>)
    ensures Words(a + b) == Words(a) + Words(b)
  {
    if a == [] {
      assert a + b == b;
    } else {
      assert (a + b)[1..] == a[1..] + b;
      WordsConcat(a[1..], b);
    }
  }

  lemma OneBlock(h: seq<word>, w: nat, b: Block)
    ensures Words([b]) == HDR_WORDS + b.size / 4
    ensures Holds(h, w, [b]) <==> w + HDR_WORDS + b.size / 4 <= |h| && h[w] == b.size && h[w + 1] == Magic(b)
  {
    assert [b][1..] == [];
  }

  lemma {:induction false} HoldsConcat(h: seq<word>, w: nat, a: seq<Block>, b: seq<Block>)
    ensures Holds(h, w, a + b) <==> Holds(h, w, a) && Holds(h, w + Words(a), b)
    decreases |a|
  {
    if a == [] {
      assert a + b == b;
    } else {
      assert (a + b)[1..] == a[1..] + b;
      HoldsConcat(h, w + HDR_WORDS + a[0].size / 4, a[1..], b);
    }
  }

  // Writes outside a run of blocks do not disturb it.
  lemma {:induction false} HoldsFrame(h: seq<word>, h': seq<word>, w: nat, l: seq<Block>)
    requires Holds(h, w, l) && |h'| == |h|
    requires forall i :: w <= i < w + Words(l) && i < |h| ==> h'[i] == h[i]
    ensures Holds(h', w, l)
    decreases |l|
  {
    if l != [] {
      HoldsFrame(h, h', w + HDR_WORDS + l[0].size / 4, l[1..]);
    }
  }

  // Replacing a run of blocks by another of the same span, when only words inside it changed.
  lemma HoldsSplice(h: seq<word>, h': seq<word>, a: seq<Block>, m: seq<Block>, c: seq<Block>, z: seq<Block>)
    requires Holds(h, 0, a + m + z) && |h'| == |h|
    requires Words(c) == Words(m) && Holds(h', Words(a), c)
    requires forall i :: 0 <= i < |h| && (i < Words(a) || Words(a) + Words(m) <= i) ==> h'[i] == h[i]
    ensures Holds(h', 0, a + c + z)
  {
    hide Holds, Words;
    WordsConcat(a, m);
    WordsConcat(a, c);
    HoldsConcat(h, 0, a + m, z);
    HoldsConcat(h, 0, a, m);
    assert Holds(h', 0, a) by { HoldsFrame(h, h', 0, a); }
    assert Holds(h', Words(a) + Words(m), z) by { HoldsFrame(h, h', Words(a) + Words(m), z); }
    HoldsConcat(h', 0, a, c);
    HoldsConcat(h', 0, a + c, z);
  }

  // What the header walk finds at its k-th stop.
  lemma AtBlock(h: seq<word>, l: seq<Block>, k: nat)
    requires Holds(h, 0, l) && k < |l|
    ensures Words(l[..k + 1]) == Words(l[..k]) + HDR_WORDS + l[k].size / 4 <= |h|
    ensures h[Words(l[..k])] == l[k].size && h[Words(l[..k]) + 1] == Magic(l[k])
  {
    hide Holds, Words;
    var a, z := l[..k], l[k + 1..];
    assert l == (a + [l[k]]) + z && l[..k + 1] == a + [l[k]];
    HoldsConcat(h, 0, a + [l[k]], z);
    HoldsConcat(h, 0, a, [l[k]]);
    WordsConcat(a, [l[k]]);
    OneBlock(h, Words(a), l[k]);
  }

  // The walk ends at the arena's end and nowhere before.
  lemma WalkEnds(l: seq<Block>, k: nat)
    requires Sizes(l) && Span(l) == HEAP_SIZE && k <= |l|
    ensures Words(l[..k]) + HDR_WORDS <= HEAP_WORDS <==> k < |l|
    ensures 4 * Words(l[..k]) == Span(l[..k])
  {
    assert l == l[..k] + l[k..];
    WordsConcat(l[..k], l[k..]);
    WordsAreBytes(l);
    WordsAreBytes(l[..k]);
    if k < |l| {
      assert Words(l[k..]) >= HDR_WORDS;
    } else {
      assert l[..k] == l;
    }
  }

  // An owner's write into a live payload leaves every header as it was.
  lemma {:induction false} PayloadWriteKeepsHeaders(h: seq<word>, w: nat, l: seq<Block>, x: (nat, nat), i: nat, v: word)
    requires Holds(h, w, l) && Sizes(l) && x in Live(l, 4 * w)
    requires x.0 <= 4 * i < x.0 + x.1 && i < |h|
    ensures Holds(h[i := v], w, l)
    decreases |l|
  {
    hide Holds, Live, Sizes;
    FirstHeader(h, w, l, x);
    var next := w + HDR_WORDS + l[0].size / 4;
    if x in Live(l[1..], 4 * next) {
      LiveRange(l[1..], 4 * next, x);
      PayloadWriteKeepsHeaders(h, next, l[1..], x, i, v);
    } else {
      HoldsFrame(h, h[i := v], next, l[1..]);
    }
    SameHeader(h, h[i := v], w, l);
  }

  // The first block of a run and the rest, for a payload somewhere in it.
  lemma FirstHeader(h: seq<word>, w: nat, l: seq<Block>, x: (nat, nat))
    requires Holds(h, w, l) && Sizes(l) && x in Live(l, 4 * w)
    ensures l != [] && Sizes(l[1..])
    ensures var next := w + HDR_WORDS + l[0].size / 4;
      && 4 * next == 4 * w + HDR_SIZE + l[0].size && Holds(h, next, l[1..])
      && (x in Live(l[1..], 4 * next) || x == (4 * w + HDR_SIZE, l[0].size))
  {
    Quarter(l[0].size);
    assert forall j :: 0 <= j < |l| - 1 ==> l[1..][j] == l[j + 1];
    var next := w + HDR_WORDS + l[0].size / 4;
    assert 4 * next == 4 * w + HDR_SIZE + l[0].size;
    hide Sizes;
  }

  lemma SameHeader(h: seq<word>, h': seq<word>, w: nat, l: seq<Block>)
    requires Holds(h, w, l) && l != [] && |h'| == |h| && h'[w] == h[w] && h'[w + 1] == h[w + 1]
    requires Holds(h', w + HDR_WORDS + l[0].size / 4, l[1..])
    ensures Holds(h', w, l)
  {
  }

  lemma CarveHolds(h: seq<word>, w: nat, b: Block, size: nat)
    requires ALIGN <= size <= b.size && size % ALIGN == 0 && b.size % ALIGN == 0
    requires w + HDR_WORDS + b.size / 4 <= |h|
    requires h[w + 1] == MAGIC_USED
    requires if b.size >= size + HDR_SIZE + ALIGN
      then h[w] == size && h[w + HDR_WORDS + size / 4] == b.size - size - HDR_SIZE
           && h[w + HDR_WORDS + size / 4 + 1] == MAGIC_FREE
      else h[w] == b.size
    ensures Holds(h, w, Carve(b, size)) && Words(Carve(b, size)) == HDR_WORDS + b.size / 4
  {
    hide Holds, Words;
    var c := Carve(b, size);
    OneBlock(h, w, c[0]);
    if |c| == 2 {
      assert c == [c[0]] + [c[1]];
      Quarter(size);
      Quarter(b.size);
      assert (b.size - size - HDR_SIZE) / 4 == b.size / 4 - size / 4 - HDR_WORDS;
      OneBlock(h, w + HDR_WORDS + size / 4, c[1]);
      HoldsConcat(h, w, [c[0]], [c[1]]);
      WordsConcat([c[0]], [c[1]]);
    } else {
      assert c == [c[0]];
    }
  }

  // No word of these payloads has changed.
  ghost predicate KeepsPayloads(h: seq<word>, h': seq<word>, live: set<(nat, nat)>) {
    |h| == |h'| && forall x, i :: x in live && x.0 <= 4 * i < x.0 + x.1 && 0 <= i < |h| ==> h'[i] == h[i]
  }

  lemma KeepsSelf(h: seq<word>, live: set<(nat, nat)>)
    ensures KeepsPayloads(h, h, live)
  {
  }

  lemma KeepsTrans(h: seq<word>, h': seq<word>, h'': seq<word>, live: set<(nat, nat)>)
    requires KeepsPayloads(h, h', live) && KeepsPayloads(h', h'', live)
    ensures KeepsPayloads(h, h'', live)
  {
    forall x, i | x in live && x.0 <= 4 * i < x.0 + x.1 && 0 <= i < |h| ensures h''[i] == h[i] {
      assert h'[i] == h[i];
    }
  }

  // Writes inside a free block touch no live payload.
  lemma FreeBlockWrites(h: seq<word>, h': seq<word>, l: seq<Block>, k: nat)
    requires k < |l| && l[k].free && Sizes(l) && |h| == |h'|
    requires forall i :: 0 <= i < |h| && (i < Words(l[..k]) || Words(l[..k]) + HDR_WORDS + l[k].size / 4 <= i) ==> h'[i] == h[i]
    ensures KeepsPayloads(h, h', Live(l, 0))
  {
    hide Live, Words, Span;
    assert Sizes(l[..k]);
    WordsAreBytes(l[..k]);
    forall x, i | x in Live(l, 0) && x.0 <= 4 * i < x.0 + x.1 && 0 <= i < |h| ensures h'[i] == h[i] {
      LiveSides(l, k, x);
    }
  }

  // Neither does rewriting a block's header words.
  lemma HeaderWrites(h: seq<word>, h': seq<word>, l: seq<Block>, k: nat)
    requires k < |l| && Sizes(l) && |h| == |h'|
    requires forall i :: 0 <= i < |h| && i != Words(l[..k]) && i != Words(l[..k]) + 1 ==> h'[i] == h[i]
    ensures KeepsPayloads(h, h', Live(l, 0))
  {
    hide Live, Words, Span;
    assert Sizes(l[..k]);
    WordsAreBytes(l[..k]);
    forall x, i | x in Live(l, 0) && x.0 <= 4 * i < x.0 + x.1 && 0 <= i < |h| ensures h'[i] == h[i] {
      LiveSides(l, k, x);
    }
  }

  // The headers after a block's header words were rewritten.
  lemma Rewritten(h: seq<word>, h': seq<word>, l: seq<Block>, k: nat, b: Block)
    requires Holds(h, 0, l) && k < |l| && b.size == l[k].size && |h'| == |h|
    requires Words(l[..k]) + 1 < |h| && h' == h[Words(l[..k]) + 1 := Magic(b)]
    ensures Holds(h', 0, l[k := b])
  {
    hide Holds, Words;
    var a, z := l[..k], l[k + 1..];
    assert l == a + [l[k]] + z && l[k := b] == a + [b] + z;
    AtBlock(h, l, k);
    OneBlock(h, Words(a), l[k]);
    OneBlock(h', Words(a), b);
    HoldsSplice(h, h', a, [l[k]], [b], z);
  }

  lemma MergedHolds(h: seq<word>, h': seq<word>, l: seq<Block>, k: nat)
    requires Holds(h, 0, l) && Sizes(l) && k + 1 < |l| && l[k].free && l[k + 1].free
    requires Words(l[..k]) < |h| && l[k].size + HDR_SIZE + l[k + 1].size < 0x1_0000_0000
    requires h' == h[Words(l[..k]) := l[k].size + HDR_SIZE + l[k + 1].size]
    ensures Holds(h', 0, Merged(l, k))
  {
    hide Holds, Words;
    var a, m, z := l[..k], [l[k]] + [l[k + 1]], l[k + 2..];
    var b := Block(l[k].size + HDR_SIZE + l[k + 1].size, true);
    assert l == a + m + z && l[..k + 1] == a + [l[k]];
    AtBlock(h, l, k);
    AtBlock(h, l, k + 1);
    assert l[..k + 2] == l[..k + 1] + [l[k + 1]];
    WordsConcat([l[k]], [l[k + 1]]);
    OneBlock(h, Words(a), l[k]);
    OneBlock(h, 0, l[k + 1]);
    Quarter(l[k].size);
    Quarter(l[k + 1].size);
    assert b.size / 4 == l[k].size / 4 + HDR_WORDS + l[k + 1].size / 4;
    OneBlock(h', Words(a), b);
    HoldsSplice(h, h', a, m, [b], z);
  }

  class Heap {
    const words: array<word>
    var ready: bool
    ghost var layout: seq<Block>

    ghost predicate Valid()
      reads this, words
    {
      && words.Length == HEAP_WORDS
      && Tiles(layout)
      && (if ready then Holds(words[..], 0, layout)
          else layout == Initial() && forall w :: 0 <= w < HEAP_WORDS ==> words[w] == 0)
    }

    ghost predicate IsLive(p: Ptr)
      reads this`layout
    {
      p.At? && p.offset >= 0 && Find(layout, 0, p.offset) < |layout|
    }

    // A pointer kfree may be given: null, outside the arena, not marked used, or live.
    ghost predicate Freeable(p: Ptr)
      reads this, words
      requires Valid()
    {
      p.At? && 0 <= p.offset - HDR_SIZE && p.offset <= HEAP_SIZE ==>
        p.offset % 4 == 0 && (words[p.offset / 4 - 1] == MAGIC_USED ==> IsLive(p))
    }

    // Whatever is in the live set may be freed, however many calls later.
    lemma LiveIsFreeable(p: Ptr, size: nat)
      requires Valid() && p.At? && p.offset >= 0 && (p.offset as nat, size) in Live(layout, 0)
      ensures IsLive(p) && Freeable(p) && layout[Find(layout, 0, p.offset)].size == size
    {
      hide Live, Holds, Find, NoFreePair, Sizes;
      FindsLive(layout, 0, p.offset, size);
      LiveAligned(layout, 0, (p.offset as nat, size));
    }

    constructor ()
      ensures Valid() && !ready && layout == Initial() && fresh(words)
    {
      words := new word[HEAP_WORDS](_ => 0);
      ready, layout := false, Initial();
      new;
      Single(Block(HEAP_SIZE - HDR_SIZE, true), 0);
    }

    method HeapInit()
      requires Valid() && !ready
      modifies this`ready, words
      ensures Valid() && ready && layout == old(layout)
      ensures KeepsPayloads(old(words[..]), words[..], Live(layout, 0))
    {
      words[0] := HEAP_SIZE - HDR_SIZE;
      words[1] := MAGIC_FREE;
      ready := true;
      OneBlock(words[..], 0, layout[0]);
      Single(layout[0], 0);
    }

    method Kmalloc(request: word) returns (p: Ptr)
      requires Valid()
      modifies this, words
      ensures Valid()
      ensures request == 0 ==> p == Null && layout == old(layout) && ready == old(ready)
      ensures request != 0 ==>
        var size := Rounded(request);
        && layout == Alloc(old(layout), size)
        && p == (if FirstFit(old(layout), size) == |old(layout)| then Null else At(AllocAt(old(layout), size)))
        && (p.Null? <==> !exists s :: Gap(old(layout), s, size))
      ensures p.At? ==>
        var given := Given(old(layout)[FirstFit(old(layout), Rounded(request))], Rounded(request));
        && given >= Rounded(request) && IsLive(p) && Freeable(p)
        && Live(layout, 0) == Live(old(layout), 0) + {(p.offset as nat, given)}
      ensures KeepsPayloads(old(words[..]), words[..], Live(old(layout), 0))
    {
      hide KeepsPayloads, Holds, Words, Span, Live, FirstFit, Gap, NoFreePair, Sizes, Given;
      KeepsSelf(words[..], Live(layout, 0));
      if request == 0 { return Null; }
      if !ready { HeapInit(); }
      var size := (request + ALIGN - 1) % 0x1_0000_0000 / ALIGN * ALIGN;
      if size < ALIGN { size := ALIGN; }
      ghost var h := words[..];
      var found, b, k := FindFree(size);
      AllocFailsIffNoGap(layout, size);
      if !found { return Null; }
      AllocAddsOne(layout, size);
      WalkEnds(layout, k);
      Take(b, size, k);
      KeepsTrans(old(words[..]), h, words[..], Live(old(layout), 0));
      p := At(4 * (b + HDR_WORDS));
      LiveIsFreeable(p, Given(old(layout)[k], size));
    }

    // The search loop of kmalloc: the first free block that is large enough.
    method FindFree(size: word) returns (found: bool, b: nat, ghost k: nat)
      requires Valid() && ready
      ensures k == FirstFit(layout, size) && (found <==> k < |layout|)
      ensures found ==> b == Words(layout[..k])
    {
      assert Words(layout[..0]) == 0;
      hide Holds, Words, Span, FirstFit, NoFreePair;
      b, k := 0, 0;
      WalkEnds(layout, 0);
      while b + HDR_WORDS <= HEAP_WORDS
        invariant k <= |layout| && b == Words(layout[..k])
        invariant b + HDR_WORDS <= HEAP_WORDS <==> k < |layout|
        invariant forall i :: 0 <= i < k ==> !Fits(layout[i], size)
        decreases |layout| - k
      {
        AtBlock(words[..], layout, k);
        if words[b + 1] == MAGIC_FREE && words[b] >= size { return true, b, k; }
        b := b + HDR_WORDS + words[b] / 4;
        k := k + 1;
        WalkEnds(layout, k);
      }
      found := false;
    }

    // What kmalloc does with the block it found: split off the remainder if it is worth it, mark the block used.
    method Take(b: nat, size: word, ghost k: nat)
      requires Valid() && ready && size >= ALIGN && size % ALIGN == 0
      requires k == FirstFit(layout, size) < |layout| && b == Words(layout[..k])
      modifies this`layout, words
      ensures Valid()
      ensures layout == Alloc(old(layout), size)
      ensures KeepsPayloads(old(words[..]), words[..], Live(old(layout), 0))
    {
      hide Span, FirstFit, Live, Holds, Words;
      ghost var l, h := layout, words[..];
      ghost var a, m, c, z := l[..k], [l[k]], Carve(l[k], size), l[k + 1..];
      assert l == a + m + z;
      AtBlock(h, l, k);
      OneBlock(h, b, l[k]);
      if words[b] >= size + HDR_SIZE + ALIGN {
        var rest := b + HDR_WORDS + size / 4;
        words[rest] := words[b] - size - HDR_SIZE;
        words[rest + 1] := MAGIC_FREE;
        words[b] := size;
      }
      words[b + 1] := MAGIC_USED;
      layout := a + c + z;
      CarveHolds(words[..], b, l[k], size);
      HoldsSplice(h, words[..], a, m, c, z);
      AllocKeepsTiles(l, size);
      FreeBlockWrites(h, words[..], l, k);
    }

    method Kfree(p: Ptr)
      requires Valid() && Freeable(p)
      modifies this`layout, words
      ensures Valid()
      ensures layout == if old(IsLive(p)) then Release(old(layout), Find(old(layout), 0, p.offset)) else old(layout)
      ensures old(IsLive(p)) ==>
        var f := Find(old(layout), 0, p.offset);
        Live(layout, 0) == Live(old(layout), 0) - {(p.offset as nat, old(layout)[f].size)}
      ensures KeepsPayloads(old(words[..]), words[..], Live(layout, 0))
    {
      hide Holds, Words, Span, Live, NoFreePair;
      if p.Null? { return; }
      ghost var l, h := layout, words[..];
      ghost var f := if p.offset >= 0 then Find(l, 0, p.offset) else |l|;
      if f < |l| {
        AtBlock(h, l, f);
        WalkEnds(l, f);
      }
      var b := p.offset - HDR_SIZE;
      if b < 0 || b + HDR_SIZE > HEAP_SIZE { return; }
      var w := b / 4;
      if words[w + 1] != MAGIC_USED { return; }
      words[w + 1] := MAGIC_FREE;
      layout := l[f := Block(l[f].size, true)];
      Rewritten(h, words[..], l, f, layout[f]);
      HeaderWrites(h, words[..], l, f);
      FreedTiles(l, f);
      ReleaseRemovesOne(l, f);
      ReleaseKeepsTiles(l, f);
      CoalesceForward();
    }

    // The loop of kfree: one pass over all headers, merging each free block with free successors.
    method CoalesceForward()
      requires words.Length == HEAP_WORDS && Holds(words[..], 0, layout) && Sizes(layout) && Span(layout) == HEAP_SIZE
      modifies this`layout, words
      ensures layout == Coalesce(old(layout)) && Holds(words[..], 0, layout)
      ensures KeepsPayloads(old(words[..]), words[..], Live(layout, 0))
    {
      ghost var l, h := layout, words[..];
      ghost var k: nat := 0;
      var cur: nat := 0;
      assert layout[..0] == [] && layout[0..] == layout;
      WalkEnds(layout, 0);
      KeepsSelf(h, Live(l, 0));
      while cur + HDR_WORDS <= HEAP_WORDS
        invariant Walking(l, h, cur, k)
        decreases |layout| - k
      {
        cur, k := CoalesceStep(l, h, cur, k);
      }
      assert layout[..k] == layout && layout[k..] == [];
    }

    // The walk has dealt with the first k blocks of what has become of l, and stands at the next.
    ghost predicate Walking(l: seq<Block>, h: seq<word>, cur: nat, k: nat)
      reads this, words
    {
      && words.Length == HEAP_WORDS && Holds(words[..], 0, layout)
      && Sizes(layout) && Span(layout) == HEAP_SIZE
      && k <= |layout| && cur == Words(layout[..k])
      && (cur + HDR_WORDS <= HEAP_WORDS <==> k < |layout|)
      && layout[..k] + Coalesce(layout[k..]) == Coalesce(l)
      && Live(layout, 0) == Live(l, 0)
      && KeepsPayloads(h, words[..], Live(l, 0))
    }

    method CoalesceStep(ghost l: seq<Block>, ghost h: seq<word>, cur: nat, ghost k: nat)
      returns (cur': nat, ghost k': nat)
      requires cur + HDR_WORDS <= HEAP_WORDS && Walking(l, h, cur, k)
      modifies this`layout, words
      ensures Walking(l, h, cur', k') && |layout| - k' < |old(layout)| - k
    {
      hide Holds, Words, Span, Live, KeepsPayloads, Sizes, Merged, Coalesce;
      AtBlock(words[..], layout, k);
      WalkEnds(layout, k + 1);
      if k + 1 < |layout| { AtBlock(words[..], layout, k + 1); }
      var nx := cur + HDR_WORDS + words[cur] / 4;
      if words[cur + 1] == MAGIC_FREE && nx + HDR_WORDS <= HEAP_WORDS && words[nx + 1] == MAGIC_FREE {
        ghost var before := words[..];
        MergeStep(layout, k);
        MergeNext(cur, nx, k);
        KeepsTrans(h, before, words[..], Live(l, 0));
        WalkEnds(layout, k);
        return cur, k;
      }
      AdvanceStep(layout, k);
      return nx, k + 1;
    }

    method MergeNext(cur: nat, nx: nat, ghost k: nat)
      requires words.Length == HEAP_WORDS && Holds(words[..], 0, layout) && Sizes(layout) && Span(layout) == HEAP_SIZE
      requires k + 1 < |layout| && layout[k].free && layout[k + 1].free
      requires cur == Words(layout[..k]) < HEAP_WORDS && nx < HEAP_WORDS
      requires words[cur] == layout[k].size && words[nx] == layout[k + 1].size
      modifies this`layout, words
      ensures layout == Merged(old(layout), k)
      ensures Holds(words[..], 0, layout)
      ensures KeepsPayloads(old(words[..]), words[..], Live(old(layout), 0))
    {
      hide Holds, Words, Span, Live, Coalesce, Sizes, KeepsPayloads;
      ghost var h := words[..];
      MergeStep(layout, k);
      words[cur] := words[cur] + HDR_SIZE + words[nx];
      MergedHolds(h, words[..], layout, k);
      HeaderWrites(h, words[..], layout, k);
      layout := Merged(layout, k);
    }

    method FreeByteCount() returns (total: nat)
      requires Valid()
      modifies this`ready, words
      ensures Valid() && ready && layout == old(layout)
      ensures old(ready) ==> words[..] == old(words[..])
      ensures total == FreeBytes(layout)
    {
      assert Words(layout[..0]) == FreeBytes(layout[..0]) == 0;
      hide Holds, Words, Span, Live, NoFreePair, FreeBytes;
      if !ready { HeapInit(); }
      ghost var h := words[..];
      total := 0;
      var b := 0;
      ghost var k := 0;
      WalkEnds(layout, 0);
      while b + HDR_WORDS <= HEAP_WORDS
        invariant k <= |layout| && b == Words(layout[..k])
        invariant b + HDR_WORDS <= HEAP_WORDS <==> k < |layout|
        invariant words[..] == h && layout == old(layout) && ready && Valid()
        invariant total == FreeBytes(layout[..k])
        decreases |layout| - k
      {
        AtBlock(words[..], layout, k);
        FreeBytesNext(layout, k);
        if words[b + 1] == MAGIC_FREE { total := total + words[b]; }
        b := b + HDR_WORDS + words[b] / 4;
        k := k + 1;
        WalkEnds(layout, k);
      }
      assert layout[..k] == layout;
    }
  }

  lemma FreeBytesNext(l: seq<Block>, k: nat)
    requires k < |l|
    ensures FreeBytes(l[..k + 1]) == FreeBytes(l[..k]) + if l[k].free then l[k].size else 0
  {
    assert l[..k + 1] == l[..k] + [l[k]];
    SpanConcat(l[..k], [l[k]]);
    assert [l[k]][1..] == [];
  }

  lemma FreedTiles(l: seq<Block>, f: nat)
    requires Tiles(l) && f < |l|
    ensures var m := l[f := Block(l[f].size, true)];
      Sizes(m) && Span(m) == HEAP_SIZE && Live(m, 0) <= Live(l, 0)
  {
    var m := l[f := Block(l[f].size, true)];
    assert m[..f] == l[..f] && m[f + 1..] == l[f + 1..];
    SpanAt(l, f);
    SpanAt(m, f);
    LiveAt(l, f);
    LiveAt(m, f);
  }
}
