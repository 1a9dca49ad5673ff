/** The power-of-two allocator of src/bsdmalloc.c: buckets of block sizes, each with a list of free
    blocks that is linked through the blocks' headers. */
module Allocator {
  import opened Basics
  import opened Bytecode

  const NBUCKETS: nat := 30

  /** The largest bucket malloc computes: its size is the largest power of two an unsigned int holds. */
  const TOP: nat := 28

  /** The machine: page size 8 * 2^pageBucket, and the bytes a header takes. */
  datatype Machine = Machine(pageBucket: nat, overhead: nat)

  predicate Sane(m: Machine) { m.pageBucket <= 20 && 0 < m.overhead <= 8 }

  function PageSize(m: Machine): nat { Pow2(m.pageBucket + 3) }

  /** The bytes a block of the bucket takes, header included. */
  function Size(m: Machine, b: nat): nat {
    if b < m.pageBucket then Pow2(b + 3) else Pow2(b + 3) + PageSize(m)
  }

  /** The bytes a caller may use. */
  function Capacity(m: Machine, b: nat): int { Size(m, b) - m.overhead }

  lemma {:induction false} CapacityGrows(m: Machine, a: nat, b: nat)
    requires a < b
    ensures Capacity(m, a) < Capacity(m, b)
  {
    PowGrows(a + 3, b + 3);
  }

  lemma {:induction false} SmallBuckets(m: Machine, b: nat)
    ensures Pow2(b + 3) < PageSize(m) <==> b < m.pageBucket
  {
    if b < m.pageBucket { PowGrows(b + 3, m.pageBucket + 3); }
    else if m.pageBucket < b { PowGrows(m.pageBucket + 3, b + 3); }
  }

  /** The bucket of a request: the least one whose blocks are large enough. */
  predicate Fits(m: Machine, nbytes: nat, b: nat) {
    b <= TOP && nbytes <= Capacity(m, b) && (b > 0 ==> nbytes > Capacity(m, b - 1))
  }

  lemma {:induction false} FitsOnce(m: Machine, nbytes: nat, a: nat, b: nat)
    requires Fits(m, nbytes, a) && Fits(m, nbytes, b)
    ensures a == b
  {
    if a < b - 1 { CapacityGrows(m, a, b - 1); }
    if b < a - 1 { CapacityGrows(m, b, a - 1); }
  }

  const TOO_BIG: nat := 0x8000_0000

  lemma {:induction false} TopPower()
    ensures Pow2(TOP + 3) == TOO_BIG
  {
    assert Pow2(10) == 1024 by { assert Pow2(5) == 32; }
    PowAdds(10, 10);
    PowAdds(20, 10);
    assert Pow2(31) == 2 * Pow2(30);
  }

  /** The limit the loop compares with: amt + n. */
  function Limit(m: Machine, b: nat, small: bool): int {
    Pow2(b + 3) + if small then 0 - m.overhead else PageSize(m) - m.overhead
  }

  lemma {:induction false} LimitIsCapacity(m: Machine, nbytes: nat, b: nat, small: bool)
    requires small == (nbytes <= PageSize(m) - m.overhead) && (if small then b <= m.pageBucket else b >= m.pageBucket)
    ensures nbytes > Limit(m, b, small) <==> nbytes > Capacity(m, b)
    ensures small && nbytes > Limit(m, b, small) ==> b < m.pageBucket
  {
    SmallBuckets(m, b);
  }

  lemma {:induction false} Doubled(b: nat)
    requires b <= TOP
    ensures Pow2(b + 3) <= TOO_BIG && (Pow2(b + 3) == TOO_BIG <==> b == TOP) && Pow2(b + 4) == 2 * Pow2(b + 3)
    ensures forall m, small :: Limit(m, b + 1, small) == Limit(m, b, small) + Pow2(b + 3)
  {
    TopPower();
    if b < TOP { PowGrows(b + 3, TOP + 3); }
  }

  lemma {:induction false} FirstLimit(m: Machine)
    ensures Pow2(3) == 8 && Limit(m, 0, true) == 8 - m.overhead
    ensures PageSize(m) == Pow2(m.pageBucket + 3) && Limit(m, m.pageBucket, false) == PageSize(m) + (PageSize(m) - m.overhead)
  {
    assert Pow2(3) == 8;
  }

  lemma {:induction false} LargeStart(m: Machine, nbytes: nat)
    requires nbytes > PageSize(m) - m.overhead
    ensures m.pageBucket > 0 ==> nbytes > Capacity(m, m.pageBucket - 1)
  {
    if m.pageBucket > 0 { PowGrows(m.pageBucket + 2, m.pageBucket + 3); }
  }

  /** The loop of malloc that finds the bucket; -1 when the size does not fit an unsigned int. */
  method ChooseBucket(m: Machine, nbytes: nat) returns (bucket: int)
    requires Sane(m)
    ensures bucket == -1 || (bucket >= 0 && Fits(m, nbytes, bucket))
    ensures bucket == -1 ==> nbytes > Capacity(m, TOP)
  {
    ghost var small := nbytes <= PageSize(m) - m.overhead;
    FirstLimit(m);
    hide Pow2, Capacity, Limit, PageSize;
    var amt: nat, n: int;
    if nbytes <= PageSize(m) - m.overhead {
      amt, bucket, n := 8, 0, 0 - m.overhead;
    } else {
      amt, bucket, n := PageSize(m), m.pageBucket, PageSize(m) - m.overhead;
      LargeStart(m, nbytes);
    }
    while nbytes > amt + n
      invariant 0 <= bucket <= TOP && amt == Pow2(bucket + 3) && amt + n == Limit(m, bucket, small)
      invariant if small then bucket <= m.pageBucket else bucket >= m.pageBucket
      invariant bucket > 0 ==> nbytes > Capacity(m, bucket - 1)
      decreases TOP - bucket
    {
      LimitIsCapacity(m, nbytes, bucket, small);
      Doubled(bucket);
      amt := if amt >= TOO_BIG then 0 else 2 * amt;
      if amt == 0 { return -1; }
      bucket := bucket + 1;
    }
    LimitIsCapacity(m, nbytes, bucket, small);
  }

  /** What the whole range of requests maps to; realloc decides by the same limits. */
  lemma {:induction false} ReallocLimits(m: Machine, nbytes: nat, b: nat)
    requires b <= TOP
    ensures
      var lower := if b == 0 then 0 else Capacity(m, b - 1);
      nbytes > 0 ==> (lower < nbytes <= Capacity(m, b) <==> Fits(m, nbytes, b))
  {}

  // ---------- Blocks ----------

  /** A header: the link of a free block, or the mark and the bucket of one in use. */
  datatype Header = Free(next: nat) | InUse(index: nat)

  /** The links from `first` run through the chain and end with zero. */
  predicate Linked(first: nat, chain: seq<nat>, headers: map<nat, Header>)
    decreases |chain|
  {
    if chain == [] then first == 0
    else first == chain[0] && first in headers && headers[first].Free? && Linked(headers[first].next, chain[1..], headers)
  }

  lemma {:induction false} LinkedElsewhere(first: nat, chain: seq<nat>, headers: map<nat, Header>, headers': map<nat, Header>)
    requires Linked(first, chain, headers)
    requires forall a :: a in chain && a in headers ==> a in headers' && headers'[a] == headers[a]
    ensures Linked(first, chain, headers')
    decreases |chain|
  {
    if chain != [] { LinkedElsewhere(headers[first].next, chain[1..], headers, headers'); }
  }

  /** Two blocks take no byte in common. */
  predicate Apart(m: Machine, a: nat, i: nat, b: nat, j: nat) {
    a + Size(m, i) <= b || b + Size(m, j) <= a
  }

  /** blocks: the bucket of every block ever carved.  They lie below brk and do not overlap; each is in
      use or on the list of its bucket, once. */
  ghost predicate BlocksOk(m: Machine, blocks: map<nat, nat>, brk: nat) {
    && (forall a :: a in blocks ==> 0 < a && blocks[a] < TOP && a + Size(m, blocks[a]) <= brk)
    && (forall a, b :: a in blocks && b in blocks && a != b ==> Apart(m, a, blocks[a], b, blocks[b]))
  }

  ghost predicate HeadersOk(blocks: map<nat, nat>, headers: map<nat, Header>, chains: seq<seq<nat>>) {
    && |chains| == NBUCKETS && headers.Keys == blocks.Keys
    && (forall a :: a in blocks && headers[a].InUse? ==> headers[a].index == blocks[a])
    && (forall a :: a in blocks && headers[a].Free? ==> blocks[a] < NBUCKETS && a in chains[blocks[a]])
  }

  ghost predicate ListsOk(blocks: map<nat, nat>, headers: map<nat, Header>, chains: seq<seq<nat>>, nextf: seq<nat>) {
    && |chains| == NBUCKETS == |nextf|
    && forall b :: 0 <= b < NBUCKETS ==> ListOk(b, chains[b], nextf[b], blocks, headers)
  }

  /** The free list of bucket b. */
  ghost predicate ListOk(b: nat, chain: seq<nat>, first: nat, blocks: map<nat, nat>, headers: map<nat, Header>) {
    && Linked(first, chain, headers) && Distinct(chain)
    && forall i :: 0 <= i < |chain| ==> chain[i] in blocks && blocks[chain[i]] == b
  }

  lemma {:induction false} ChainIsFree(first: nat, chain: seq<nat>, headers: map<nat, Header>)
    requires Linked(first, chain, headers)
    ensures forall i :: 0 <= i < |chain| ==> chain[i] in headers && headers[chain[i]].Free?
    decreases |chain|
  {
    if chain != [] {
      ChainIsFree(headers[first].next, chain[1..], headers);
      assert forall i :: 0 < i < |chain| ==> chain[i] == chain[1..][i - 1];
    }
  }

  /** A list keeps its shape when headers outside of it change. */
  lemma {:induction false} ListKeeps(b: nat, chain: seq<nat>, first: nat, blocks: map<nat, nat>, headers: map<nat, Header>,
                                     blocks': map<nat, nat>, headers': map<nat, Header>)
    requires ListOk(b, chain, first, blocks, headers)
    requires forall a :: a in blocks && blocks[a] == b ==> a in blocks' && blocks'[a] == b
    requires forall a :: a in chain && a in headers ==> a in headers' && headers'[a] == headers[a]
    ensures ListOk(b, chain, first, blocks', headers')
  {
    hide Linked;
    LinkedElsewhere(first, chain, headers, headers');
  }

  // ---------- The heap as a value ----------

  /** `chains` are the free lists, `blocks` holds the bucket of every block ever carved. */
  datatype Heap = Heap(m: Machine, nextf: seq<nat>, headers: map<nat, Header>, brk: nat,
                       blocks: map<nat, nat>, chains: seq<seq<nat>>)

  ghost predicate Ok(h: Heap) {
    && Sane(h.m) && h.brk > 0 && BlocksOk(h.m, h.blocks, h.brk) && HeadersOk(h.blocks, h.headers, h.chains)
    && ListsOk(h.blocks, h.headers, h.chains, h.nextf)
  }

  /** The blocks in use. */
  function Live(h: Heap): set<nat> { set a | a in h.headers && h.headers[a].InUse? }

  lemma {:induction false} OkParts(h: Heap)
    requires Ok(h)
    ensures Sane(h.m) && h.brk > 0 && |h.nextf| == |h.chains| == NBUCKETS && h.headers.Keys == h.blocks.Keys
    ensures BlocksOk(h.m, h.blocks, h.brk) && HeadersOk(h.blocks, h.headers, h.chains)
    ensures ListsOk(h.blocks, h.headers, h.chains, h.nextf)
    ensures forall b :: 0 <= b < NBUCKETS ==> ListOk(b, h.chains[b], h.nextf[b], h.blocks, h.headers)
  {}

  /** Safety: two blocks, live or free, never overlap; a block that is not live is on the free list of its
      bucket and on no other, once; and no bucket is out of range. */
  lemma {:induction false} HeapIsSafe(h: Heap, a: nat, b: nat)
    requires Ok(h) && a in h.blocks
    ensures b in h.blocks && b != a ==> Apart(h.m, a, h.blocks[a], b, h.blocks[b])
    ensures h.blocks[a] < NBUCKETS
    ensures a in Live(h) <==> forall k :: 0 <= k < NBUCKETS ==> a !in h.chains[k]
    ensures a !in Live(h) ==> a in h.chains[h.blocks[a]] && forall k :: 0 <= k < NBUCKETS && k != h.blocks[a] ==> a !in h.chains[k]
    ensures forall k :: 0 <= k < NBUCKETS ==> Distinct(h.chains[k])
  {
    OkParts(h);
    forall k | 0 <= k < NBUCKETS ensures a in h.chains[k] ==> k == h.blocks[a] && a !in Live(h) {
      ChainIsFree(h.nextf[k], h.chains[k], h.headers);
    }
  }

  /** The first free block of a bucket is put to use. */
  function Popped(h: Heap, b: nat): Heap
    requires b < |h.chains| == |h.nextf| && h.nextf[b] in h.headers && h.headers[h.nextf[b]].Free? && h.chains[b] != []
  {
    var a := h.nextf[b];
    h.(nextf := h.nextf[b := h.headers[a].next], headers := h.headers[a := InUse(b)], chains := h.chains[b := h.chains[b][1..]])
  }

  lemma {:induction false} PoppedIsOk(h: Heap, b: nat)
    requires Ok(h) && b < NBUCKETS && h.nextf[b] != 0
    ensures
      var a := h.nextf[b];
      && h.chains[b] != [] && a in h.headers && h.headers[a].Free? && a in h.blocks && h.blocks[a] == b
      && Ok(Popped(h, b)) && a !in Live(h) && Live(Popped(h, b)) == Live(h) + {a}
  {
    OkParts(h);
    assert ListOk(b, h.chains[b], h.nextf[b], h.blocks, h.headers);
    var a, chain := h.nextf[b], h.chains[b];
    var h' := Popped(h, b);
    PoppedLists(h, b);
    PoppedHeaders(h, b);
    hide ListsOk, ListOk, BlocksOk, HeadersOk;
  }

  lemma {:induction false} PoppedHeaders(h: Heap, b: nat)
    requires HeadersOk(h.blocks, h.headers, h.chains) && b < |h.nextf| == NBUCKETS && h.chains[b] != []
    requires var a := h.nextf[b]; h.chains[b][0] == a && a in h.headers && h.headers[a].Free? && h.blocks[a] == b
    ensures var h' := Popped(h, b); HeadersOk(h'.blocks, h'.headers, h'.chains)
  {
    var a, chain, h' := h.nextf[b], h.chains[b], Popped(h, b);
    forall c | c in h'.blocks && h'.headers[c].Free? ensures c in h'.chains[h'.blocks[c]] {
      assert c in h.chains[h.blocks[c]] && c != a;
      if h.blocks[c] == b { assert chain == [a] + chain[1..]; }
    }
  }

  lemma {:induction false} PoppedLists(h: Heap, b: nat)
    requires Ok(h) && b < NBUCKETS == |h.chains| == |h.nextf| && h.chains[b] != []
    requires h.nextf[b] in h.headers && h.headers[h.nextf[b]].Free?
    ensures var h' := Popped(h, b); ListsOk(h'.blocks, h'.headers, h'.chains, h'.nextf)
  {
    OkParts(h);
    hide Ok, BlocksOk, HeadersOk;
    var a, chain, h' := h.nextf[b], h.chains[b], Popped(h, b);
    assert ListOk(b, chain, a, h.blocks, h.headers);
    forall k | 0 <= k < NBUCKETS ensures ListOk(k, h'.chains[k], h'.nextf[k], h'.blocks, h'.headers) {
      assert ListOk(k, h.chains[k], h.nextf[k], h.blocks, h.headers);
      if k == b {
        ShorterList(b, chain, a, h.blocks, h.headers, h'.headers);
      } else {
        FirstOfChain(b, chain, a, h.blocks, h.headers);
        hide Linked;
        ListKeeps(k, h.chains[k], h.nextf[k], h.blocks, h.headers, h.blocks, h'.headers);
      }
    }
  }

  lemma {:induction false} FirstOfChain(b: nat, chain: seq<nat>, a: nat, blocks: map<nat, nat>, headers: map<nat, Header>)
    requires ListOk(b, chain, a, blocks, headers) && chain != []
    ensures chain[0] == a && a in blocks && blocks[a] == b
  {}

  lemma {:induction false} ShorterList(b: nat, chain: seq<nat>, a: nat, blocks: map<nat, nat>, headers: map<nat, Header>, headers': map<nat, Header>)
    requires ListOk(b, chain, a, blocks, headers) && chain != [] && headers' == headers[a := InUse(b)]
    ensures ListOk(b, chain[1..], headers[a].next, blocks, headers')
  {
    var rest := chain[1..];
    assert forall i :: 0 <= i < |rest| ==> rest[i] == chain[i + 1] && rest[i] != chain[0];
    LinkedElsewhere(headers[a].next, rest, headers, headers');
  }

  /** A block in use is put in front of its free list. */
  function Released(h: Heap, a: nat): Heap
    requires a in h.headers && h.headers[a].InUse? && h.headers[a].index < |h.chains| == |h.nextf|
  {
    var i := h.headers[a].index;
    h.(nextf := h.nextf[i := a], headers := h.headers[a := Free(h.nextf[i])], chains := h.chains[i := [a] + h.chains[i]])
  }

  lemma {:induction false} ReleasedIsOk(h: Heap, a: nat)
    requires Ok(h) && a in Live(h)
    ensures a in h.blocks && h.headers[a].index == h.blocks[a] < NBUCKETS && |h.chains| == |h.nextf| == NBUCKETS
    ensures Ok(Released(h, a)) && Live(Released(h, a)) == Live(h) - {a}
  {
    OkParts(h);
    var i, h' := h.headers[a].index, Released(h, a);
    ReleasedLists(h, a);
    ReleasedHeaders(h, a);
    hide ListsOk, BlocksOk, HeadersOk, ListOk;
  }

  lemma {:induction false} ReleasedHeaders(h: Heap, a: nat)
    requires HeadersOk(h.blocks, h.headers, h.chains) && |h.nextf| == NBUCKETS
    requires a in h.blocks && a in h.headers && h.headers[a].InUse? && h.headers[a].index == h.blocks[a] < NBUCKETS
    ensures var h' := Released(h, a); HeadersOk(h'.blocks, h'.headers, h'.chains)
  {
    var h' := Released(h, a);
    forall c | c in h'.blocks && h'.headers[c].Free? ensures c in h'.chains[h'.blocks[c]] {
      if c != a { assert c in h.chains[h.blocks[c]]; }
    }
  }

  lemma {:induction false} ReleasedLists(h: Heap, a: nat)
    requires Ok(h) && a in Live(h) && a in h.blocks && h.headers[a].index == h.blocks[a] < NBUCKETS
    requires |h.chains| == |h.nextf| == NBUCKETS
    ensures var h' := Released(h, a); ListsOk(h'.blocks, h'.headers, h'.chains, h'.nextf)
  {
    OkParts(h);
    hide Ok, BlocksOk, HeadersOk;
    var i, h' := h.headers[a].index, Released(h, a);
    forall k | 0 <= k < NBUCKETS ensures ListOk(k, h'.chains[k], h'.nextf[k], h'.blocks, h'.headers) {
      assert ListOk(k, h.chains[k], h.nextf[k], h.blocks, h.headers);
      ChainIsFree(h.nextf[k], h.chains[k], h.headers);
      hide Linked;
      ListKeeps(k, h.chains[k], h.nextf[k], h.blocks, h.headers, h.blocks, h'.headers);
      if k == i { LongerList(i, h.chains[i], h.nextf[i], a, h.blocks, h'.headers); }
    }
  }

  lemma {:induction false} LongerList(b: nat, chain: seq<nat>, first: nat, a: nat, blocks: map<nat, nat>, headers: map<nat, Header>)
    requires ListOk(b, chain, first, blocks, headers) && a in headers && headers[a] == Free(first)
    requires a in blocks && blocks[a] == b && a !in chain
    ensures ListOk(b, [a] + chain, a, blocks, headers)
  {
    assert ([a] + chain)[1..] == chain;
  }

  // ---------- Carving ----------

  /** n blocks of `width` bytes from `at` on. */
  function CarvedChain(at: nat, width: nat, n: nat): (chain: seq<nat>)
    ensures |chain| == n
    decreases n
  {
    if n == 0 then [] else [at] + CarvedChain(at + width, width, n - 1)
  }

  /** Each of them is linked to the next one; the last link is a zero of the fresh memory. */
  function CarvedHeaders(at: nat, width: nat, n: nat): map<nat, Header>
    decreases n
  {
    if n == 0 then map[]
    else if n == 1 then map[at := Free(0)]
    else CarvedHeaders(at + width, width, n - 1)[at := Free(at + width)]
  }

  function CarvedBlocks(at: nat, width: nat, n: nat, b: nat): map<nat, nat>
    decreases n
  {
    if n == 0 then map[] else CarvedBlocks(at + width, width, n - 1, b)[at := b]
  }

  lemma {:induction false} CarvedInside(at: nat, width: nat, n: nat, b: nat)
    requires width > 0
    ensures
      var blocks := CarvedBlocks(at, width, n, b);
      && CarvedHeaders(at, width, n).Keys == blocks.Keys
      && (forall a :: a in blocks ==> at <= a && a + width <= at + n * width && blocks[a] == b)
      && (forall a, c :: a in blocks && c in blocks && a != c ==> a + width <= c || c + width <= a)
    decreases n
  {
    if n > 0 {
      CarvedInside(at + width, width, n - 1, b);
      assert (n - 1) * width == n * width - width;
    }
  }

  lemma {:induction false} CarvedLinks(at: nat, width: nat, n: nat)
    requires width > 0 && n > 0
    ensures Linked(at, CarvedChain(at, width, n), CarvedHeaders(at, width, n))
    decreases n
  {
    if n > 1 {
      CarvedLinks(at + width, width, n - 1);
      CarvedInside(at + width, width, n - 1, 0);
      var rest := CarvedChain(at + width, width, n - 1);
      LinkedElsewhere(at + width, rest, CarvedHeaders(at + width, width, n - 1), CarvedHeaders(at, width, n));
      assert CarvedChain(at, width, n)[1..] == rest;
    }
  }

  lemma {:induction false} CarvedOnce(at: nat, width: nat, n: nat, b: nat)
    requires width > 0
    ensures
      var chain, blocks, headers := CarvedChain(at, width, n), CarvedBlocks(at, width, n, b), CarvedHeaders(at, width, n);
      && Distinct(chain) && (forall i :: 0 <= i < |chain| ==> chain[i] in blocks && at <= chain[i])
      && forall a :: a in blocks ==> a in chain && a in headers && headers[a].Free?
    decreases n
  {
    if n > 0 {
      CarvedOnce(at + width, width, n - 1, b);
      var rest := CarvedChain(at + width, width, n - 1);
      assert CarvedChain(at, width, n) == [at] + rest;
    }
  }

  /** The size of a carved block and how many of them one piece of memory makes. */
  function Pieces(m: Machine, b: nat): nat {
    if b < m.pageBucket then Pow2(m.pageBucket - b) else 1
  }

  function Carved(h: Heap, b: nat, at: nat): Heap
    requires b < |h.nextf| == |h.chains|
  {
    var w, n := Size(h.m, b), Pieces(h.m, b);
    h.(nextf := h.nextf[b := at], headers := h.headers + CarvedHeaders(at, w, n), brk := at + n * w,
       blocks := h.blocks + CarvedBlocks(at, w, n, b), chains := h.chains[b := CarvedChain(at, w, n)])
  }

  lemma {:induction false} CarvedIsOk(h: Heap, b: nat, at: nat)
    requires Ok(h) && b < TOP && |h.nextf| == |h.chains| == NBUCKETS && h.nextf[b] == 0 && at >= h.brk
    ensures Ok(Carved(h, b, at)) && at > 0
    ensures Live(Carved(h, b, at)) == Live(h)
    ensures forall c :: c in h.blocks ==> c in Carved(h, b, at).blocks && Carved(h, b, at).blocks[c] == h.blocks[c]
  {
    hide ListsOk, ListOk;
    OkParts(h);
    var w, n := Size(h.m, b), Pieces(h.m, b);
    var chain, hs, bs := CarvedChain(at, w, n), CarvedHeaders(at, w, n), CarvedBlocks(at, w, n, b);
    CarvedBlocksOk(h.m, h.blocks, h.brk, b, at);
    CarvedIsAppendable(h, b, at);
    hide CarvedBlocks, CarvedHeaders, CarvedChain, Size, Pieces;
    AppendedLists(h, b, at, chain, hs, bs);
    AppendedHeaders(h, b, at, chain, hs, bs);
    AppendedKeeps(h, hs, bs, Carved(h, b, at));
    MulNonneg(n, w);
    hide BlocksOk, ListsOk, HeadersOk, ListOk, Live, Appendable;
  }

  lemma {:induction false} MulNonneg(n: nat, w: nat)
    ensures n * w >= 0
  {}

  lemma {:induction false} CarvedBlocksOk(m: Machine, blocks: map<nat, nat>, brk: nat, b: nat, at: nat)
    requires BlocksOk(m, blocks, brk) && brk > 0 && at >= brk && b < TOP
    ensures
      var w, n := Size(m, b), Pieces(m, b);
      BlocksOk(m, blocks + CarvedBlocks(at, w, n, b), at + n * w)
  {
    var w, n := Size(m, b), Pieces(m, b);
    CarvedInside(at, w, n, b);
    var more := CarvedBlocks(at, w, n, b);
    MulNonneg(n, w);
    assert forall a :: a in blocks ==> a !in more by {
      assert forall a :: a in blocks ==> Size(m, blocks[a]) > 0;
    }
    hide Size, Pieces, CarvedBlocks;
    assert forall a, c :: a in more && c in more && a != c ==> Apart(m, a, more[a], c, more[c]);
    UnionOk(m, blocks, brk, more, at, at + n * w);
  }

  lemma {:induction false} UnionOk(m: Machine, blocks: map<nat, nat>, brk: nat, more: map<nat, nat>, at: nat, end: nat)
    requires BlocksOk(m, blocks, brk) && 0 < brk <= at <= end && forall a :: a in blocks ==> a !in more
    requires forall a :: a in more ==> at <= a && more[a] < TOP && a + Size(m, more[a]) <= end
    requires forall a, c :: a in more && c in more && a != c ==> Apart(m, a, more[a], c, more[c])
    ensures BlocksOk(m, blocks + more, end)
  {
    hide Size;
  }

  lemma {:induction false} NewAddresses(h: Heap, more: map<nat, nat>, at: nat)
    requires Ok(h) && at >= h.brk && forall a :: a in more ==> at <= a
    ensures forall a :: a in h.blocks ==> a !in more
    ensures forall a :: a in h.headers ==> a !in more
  {
    OkParts(h);
    assert forall a :: a in h.blocks ==> Size(h.m, h.blocks[a]) > 0;
  }

  /** New free blocks become the free list of a bucket that had none. */
  predicate Appendable(b: nat, at: nat, chain: seq<nat>, hs: map<nat, Header>, bs: map<nat, nat>, blocks: map<nat, nat>) {
    && Linked(at, chain, hs) && Distinct(chain) && hs.Keys == bs.Keys && b < NBUCKETS
    && (forall i :: 0 <= i < |chain| ==> chain[i] in bs)
    && (forall a :: a in bs ==> bs[a] == b && a !in blocks && a in chain && hs[a].Free?)
  }

  lemma {:induction false} AppendedLists(h: Heap, b: nat, at: nat, chain: seq<nat>, hs: map<nat, Header>, bs: map<nat, nat>)
    requires Ok(h) && Appendable(b, at, chain, hs, bs, h.blocks) && |h.nextf| == |h.chains| == NBUCKETS
    ensures ListsOk(h.blocks + bs, h.headers + hs, h.chains[b := chain], h.nextf[b := at])
  {
    OkParts(h);
    hide Ok, BlocksOk, HeadersOk;
    var headers, blocks, chains, nextf := h.headers + hs, h.blocks + bs, h.chains[b := chain], h.nextf[b := at];
    LinkedElsewhere(at, chain, hs, headers);
    hide Linked;
    forall k | 0 <= k < NBUCKETS ensures ListOk(k, chains[k], nextf[k], blocks, headers) {
      if k != b {
        assert ListOk(k, h.chains[k], h.nextf[k], h.blocks, h.headers);
        ListKeeps(k, h.chains[k], h.nextf[k], h.blocks, h.headers, blocks, headers);
      }
    }
  }

  lemma {:induction false} AppendedHeaders(h: Heap, b: nat, at: nat, chain: seq<nat>, hs: map<nat, Header>, bs: map<nat, nat>)
    requires HeadersOk(h.blocks, h.headers, h.chains) && Appendable(b, at, chain, hs, bs, h.blocks) && h.chains[b] == []
    ensures HeadersOk(h.blocks + bs, h.headers + hs, h.chains[b := chain])
  {
    hide Linked, Distinct;
    var headers, blocks, chains := h.headers + hs, h.blocks + bs, h.chains[b := chain];
    forall c | c in blocks
      ensures headers[c].Free? ==> blocks[c] < NBUCKETS && c in chains[blocks[c]]
      ensures headers[c].InUse? ==> headers[c].index == blocks[c]
    {
      if c !in bs { assert h.headers[c].Free? ==> c in h.chains[h.blocks[c]]; }
    }
  }

  lemma {:induction false} AppendedKeeps(h: Heap, hs: map<nat, Header>, bs: map<nat, nat>, h': Heap)
    requires hs.Keys == bs.Keys && h.headers.Keys == h.blocks.Keys && forall a :: a in bs ==> a !in h.blocks && hs[a].Free?
    requires h'.headers == h.headers + hs && h'.blocks == h.blocks + bs
    ensures Live(h') == Live(h)
    ensures forall c :: c in h.blocks ==> c in h'.blocks && h'.blocks[c] == h.blocks[c]
  {}

  lemma {:induction false} CarvedIsAppendable(h: Heap, b: nat, at: nat)
    requires Ok(h) && b < TOP && |h.nextf| == |h.chains| == NBUCKETS && h.nextf[b] == 0 && at >= h.brk
    ensures
      var w, n := Size(h.m, b), Pieces(h.m, b);
      Appendable(b, at, CarvedChain(at, w, n), CarvedHeaders(at, w, n), CarvedBlocks(at, w, n, b), h.blocks)
    ensures h.chains[b] == []
  {
    OkParts(h);
    var w, n := Size(h.m, b), Pieces(h.m, b);
    CarvedInside(at, w, n, b);
    CarvedLinks(at, w, n);
    CarvedOnce(at, w, n, b);
    NewAddresses(h, CarvedBlocks(at, w, n, b), at);
    assert ListOk(b, h.chains[b], h.nextf[b], h.blocks, h.headers);
    EmptyList(h.chains[b], h.headers, h.blocks, b);
    hide CarvedBlocks, CarvedHeaders, CarvedChain, Linked, Size, Pieces;
  }

  /** No block lies at address zero, so a list that begins with zero is empty. */
  lemma {:induction false} EmptyList(chain: seq<nat>, headers: map<nat, Header>, blocks: map<nat, nat>, b: nat)
    requires ListOk(b, chain, 0, blocks, headers) && 0 !in blocks
    ensures chain == []
  {}

  // ---------- What a call keeps ----------

  /** No block changes its bucket. */
  predicate KeepsBlocks(before: map<nat, nat>, after: map<nat, nat>) {
    forall a :: a in before ==> a in after && after[a] == before[a]
  }

  predicate Grown(h: Heap, h': Heap) {
    h'.m == h.m && h.brk <= h'.brk && KeepsBlocks(h.blocks, h'.blocks)
  }

  /** Memory grows at its end. */
  predicate Appended(before: seq<Byte>, after: seq<Byte>) { before <= after }

  /** The block a pointer stands for. */
  function Block(m: Machine, cp: nat): set<int> { if cp == 0 then {} else {cp - m.overhead} }

  /** The pointer belongs to a live block of the bucket that fits n bytes. */
  predicate Owns(h: Heap, cp: nat, n: nat) {
    var a := cp - h.m.overhead;
    a > 0 && a in Live(h) && a in h.blocks && Fits(h.m, n, h.blocks[a]) && cp + Capacity(h.m, h.blocks[a]) <= h.brk
  }

  // ---------- The code ----------

  /** What the operating system answers when more memory is asked for: the memory begins `gap` bytes
      behind what the allocator got before. */
  datatype Sbrk = NoRoom | Room(gap: nat)

  /** The request is larger than any bucket, or its free list is empty and cannot be filled. */
  ghost predicate Refused(h: Heap, nbytes: nat, sbrk: Sbrk) {
    || nbytes > Capacity(h.m, TOP)
    || exists b: nat :: Fits(h.m, nbytes, b) && b < |h.nextf| && h.nextf[b] == 0 && (b == TOP || sbrk.NoRoom?)
  }

  /** How many blocks of each free list realloc looks at. */
  const SEARCH_LENGTH: nat := 4

  function Early(chain: seq<nat>, length: nat): seq<nat> { if |chain| <= length then chain else chain[..length] }

  /** A freed block whose size is not found out, and is exceeded. */
  ghost predicate Forgotten(h: Heap, a: nat, nbytes: nat) {
    && a in h.blocks && a !in Live(h) && h.blocks[a] < |h.chains| && a !in Early(h.chains[h.blocks[a]], SEARCH_LENGTH)
    && nbytes > Capacity(h.m, h.blocks[a])
  }

  /** The same for a request of realloc, which has given back the block `a` before. */
  ghost predicate Lost(h: Heap, a: nat, nbytes: nat, sbrk: Sbrk) {
    || nbytes > Capacity(h.m, TOP)
    || exists b: nat ::
        && Fits(h.m, nbytes, b) && !(a in h.blocks && b == h.blocks[a])
        && b < |h.nextf| && h.nextf[b] == 0 && (b == TOP || sbrk.NoRoom?)
  }

  class Arena {
    const m: Machine
    var nextf: seq<nat>
    var headers: map<nat, Header>
    var memory: seq<Byte>              // everything below the break; headers are kept apart
    ghost var blocks: map<nat, nat>
    ghost var chains: seq<seq<nat>>

    ghost function State(): Heap
      reads this
    {
      Heap(m, nextf, headers, |memory|, blocks, chains)
    }

    ghost predicate Valid()
      reads this
    {
      Ok(State()) && |nextf| == |chains| == NBUCKETS
    }

    /** `start` bytes, at least one, lie before the first block. */
    constructor (machine: Machine, start: nat)
      requires Sane(machine) && start > 0
      ensures Valid() && blocks == map[] && m == machine
    {
      m := machine;
      nextf := seq(NBUCKETS, _ => 0);
      headers := map[];
      memory := seq(start, _ => 0);
      blocks, chains := map[], seq(NBUCKETS, _ => []);
      new;
      assert forall b :: 0 <= b < NBUCKETS ==> ListOk(b, chains[b], nextf[b], blocks, headers);
    }

    /** morecore: a piece of memory becomes the free list of the bucket. */
    method Morecore(bucket: nat, sbrk: Sbrk)
      requires Valid() && bucket <= TOP && nextf[bucket] == 0
      modifies this
      ensures Valid() && old(memory) <= memory
      ensures bucket == TOP || sbrk.NoRoom? ==> State() == old(State())
      ensures bucket < TOP && sbrk.Room? ==> State() == Carved(old(State()), bucket, old(|memory|) + sbrk.gap) && nextf[bucket] != 0
    {
      hide Ok, CarvedChain, CarvedHeaders, CarvedBlocks, Pow2;
      ghost var h := State();
      if bucket == TOP || sbrk.NoRoom? { return; }   // 1 << (bucket + 3) is negative, or there is no room
      OkParts(h);
      PiecesFit(m, bucket);
      var sz := Pow2(bucket + 3);
      var amt, nblks := if sz < PageSize(m) then PageSize(m) else sz + PageSize(m), if sz < PageSize(m) then PageSize(m) / sz else 1;
      var op := |memory| + sbrk.gap;
      CarvedIsOk(h, bucket, op);
      memory := memory + seq(sbrk.gap + amt, _ => 0);
      nextf := nextf[bucket := op];
      headers := LinkBlocks(headers, op, if nblks == 1 then amt else sz, nblks);
      blocks := blocks + CarvedBlocks(op, Size(m, bucket), Pieces(m, bucket), bucket);
      chains := chains[bucket := CarvedChain(op, Size(m, bucket), Pieces(m, bucket))];
      assert State() == Carved(h, bucket, op);
    }

    /** Makes sure the free list has a block, if there is memory. */
    method Refill(bucket: nat, sbrk: Sbrk)
      requires Valid() && bucket <= TOP
      modifies this
      ensures Valid() && Appended(old(memory), memory) && Live(State()) == old(Live(State())) && Grown(old(State()), State())
      ensures nextf[bucket] == 0 <==> old(nextf[bucket]) == 0 && (bucket == TOP || sbrk.NoRoom?)
    {
      hide Ok, CarvedChain, CarvedHeaders, CarvedBlocks, Pow2, Size, Live;
      if nextf[bucket] == 0 {
        if bucket < TOP && sbrk.Room? { CarvedIsOk(State(), bucket, |memory| + sbrk.gap); }
        Morecore(bucket, sbrk);
      }
    }

    /** bsdmalloc_malloc; 0 stands for the null pointer. */
    method Malloc(nbytes: nat, sbrk: Sbrk) returns (cp: nat)
      requires Valid()
      modifies this
      ensures Valid() && Appended(old(memory), memory) && Grown(old(State()), State())
      ensures Live(State()) == old(Live(State())) + Block(m, cp)
      ensures cp == 0 <==> Refused(old(State()), nbytes, sbrk)
      ensures cp != 0 ==> Owns(State(), cp, nbytes) && Block(m, cp) !! old(Live(State()))
    {
      hide Ok, Fits, Capacity, Size, Pow2, PageSize, Live, KeepsBlocks, Grown, Appended, Block, Owns, Least, Moved, Untouched, Copied, Refused;
      ghost var h := State();
      OkParts(h);
      cp := 0;
      NoBlock(h, memory);
      var bucket := ChooseBucket(m, nbytes);
      FitsInTop(m, nbytes, bucket);
      if bucket == -1 { TooBigIsRefused(h, nbytes, sbrk); return; }
      RefusedInBucket(h, nbytes, sbrk, bucket);
      Refill(bucket, sbrk);
      if nextf[bucket] == 0 { return; }
      ghost var h1 := State();
      cp := TakeFirst(bucket);
      NowOwns(h, h1, State(), cp, bucket, nbytes);
    }

    /** Takes the first block off a free list and marks it. */
    method TakeFirst(bucket: nat) returns (cp: nat)
      requires Valid() && bucket < NBUCKETS && nextf[bucket] != 0
      modifies `nextf, `headers, `chains
      ensures Valid() && cp > m.overhead && cp - m.overhead in blocks && blocks[cp - m.overhead] == bucket
      ensures cp + Capacity(m, bucket) <= |memory| && cp - m.overhead !in old(Live(State()))
      ensures Live(State()) == old(Live(State())) + {cp - m.overhead}
    {
      hide Ok, Live, Size;
      ghost var h := State();
      PoppedIsOk(h, bucket);
      var op := nextf[bucket];
      BlockInside(h, op);
      nextf := nextf[bucket := headers[op].next];
      headers := headers[op := InUse(bucket)];
      chains := chains[bucket := chains[bucket][1..]];
      assert State() == Popped(h, bucket);
      cp := op + m.overhead;
    }

    /** bsdmalloc_free: a null pointer, or a pointer to a block, in use or not. */
    method Release(cp: nat)
      requires Valid() && (cp == 0 || (cp > m.overhead && cp - m.overhead in blocks))
      modifies `nextf, `headers, `chains
      ensures Valid() && Live(State()) == old(Live(State())) - Block(m, cp)
      ensures cp != 0 && cp - m.overhead in old(Live(State())) ==>
        var h, op := old(State()), cp - m.overhead;
        && op in h.headers && h.headers[op].InUse? && h.headers[op].index < |h.chains| == |h.nextf|
        && State() == Released(h, op)
    {
      hide Ok, Live;
      if cp == 0 { return; }
      OkParts(State());
      var op := cp - m.overhead;
      if headers[op].Free? {
        NotLive(State(), op);
        return;
      }
      ghost var h := State();
      IsLive(h, op);
      ReleasedIsOk(h, op);
      var size := headers[op].index;
      headers := headers[op := Free(nextf[size])];
      nextf := nextf[size := op];
      chains := chains[size := [op] + chains[size]];
      assert State() == Released(h, op);
    }

    /** The bytes a block of the bucket offers, as realloc computes them. */
    method Offered(bucket: nat) returns (n: int)
      requires Sane(m)
      ensures n == Capacity(m, bucket) >= 0
    {
      SmallBuckets(m, bucket);
      AtLeastEight(bucket);
      n := Pow2(bucket + 3);
      if n < PageSize(m) { n := n - m.overhead; } else { n := n + PageSize(m) - m.overhead; }
    }

    /** Frees a block and allocates another one for its contents. */
    method Relocate(cp: nat, nbytes: nat, onb: nat, sbrk: Sbrk) returns (res: nat)
      requires Valid() && cp > m.overhead && cp - m.overhead in Live(State()) && cp - m.overhead in blocks
      requires onb == Capacity(m, blocks[cp - m.overhead])
      modifies this
      ensures Valid() && Grown(old(State()), State())
      ensures res != 0 ==> Owns(State(), res, nbytes)
      ensures Live(State()) == old(Live(State())) - Block(m, cp) + Block(m, res)
      ensures res == 0 <==> Lost(old(State()), cp - m.overhead, nbytes, sbrk)
      ensures res != 0 ==> Moved(old(memory), memory, cp, res, Least(nbytes, onb))
      ensures Untouched(old(memory), memory, res, nbytes)
    {
      hide Ok, Fits, Capacity, Size, Pow2, PageSize, Live, KeepsBlocks, Grown, Appended, Block, Owns, Least, Moved, Untouched, Copied, Refused, Lost;
      ghost var h, before := State(), memory;
      BlockInside(h, cp - m.overhead);
      RefusedAfterRelease(h, cp - m.overhead, nbytes, sbrk);
      Release(cp);
      ghost var h1 := State();
      res := Malloc(nbytes, sbrk);
      ghost var h2 := State();
      BlocksKept(h, h1, h2, cp - m.overhead);
      MoveContents(cp, res, nbytes, onb, before);
      assert State() == h2;
    }

    /** The end of realloc: the contents of the old block go to the new one, if there is one. */
    method MoveContents(cp: nat, res: nat, nbytes: nat, onb: nat, ghost before: seq<Byte>)
      requires Valid() && cp > m.overhead && cp - m.overhead in blocks && onb == Capacity(m, blocks[cp - m.overhead])
      requires cp + onb <= |before| && Appended(before, memory) && (res != 0 ==> Owns(State(), res, nbytes))
      modifies `memory
      ensures Valid() && State() == old(State())
      ensures res != 0 ==> Moved(before, memory, cp, res, Least(nbytes, onb))
      ensures Untouched(before, memory, res, nbytes)
    {
      hide Ok, Fits, Capacity, Size, Pow2, PageSize, Live, KeepsBlocks, Grown, Block, Owns, Moved, Untouched, Copied;
      ghost var middle := memory;
      if res != 0 && res != cp {
        OwnsParts(State(), res, nbytes);
        UsersApart(State(), cp - m.overhead, res - m.overhead);
        Copy(cp, res, if nbytes < onb then nbytes else onb);
      }
      IsMoved(before, middle, memory, cp, res, Least(nbytes, onb), nbytes);
    }

    /** bsdmalloc_realloc.  For a null pointer it is malloc, and a block that was freed already is brought
        back.  A live block is kept exactly when the new size belongs into its bucket; otherwise its contents move,
        as far as both blocks reach.  When there is no room for the new block the old one is no longer live. */
    method Realloc(cp: nat, nbytes: nat, sbrk: Sbrk, junk: seq<Byte>) returns (res: nat, ghost overread: bool)
      requires Valid() && (cp == 0 || (cp > m.overhead && cp - m.overhead in blocks)) && |junk| == nbytes
      modifies this
      ensures Valid() && Grown(old(State()), State())
      ensures cp != 0 && cp - m.overhead in old(Live(State())) && nbytes > 0 && Fits(m, nbytes, old(blocks[cp - m.overhead])) ==>
        res == cp && State() == old(State()) && memory == old(memory)
      ensures cp != 0 && cp - m.overhead in old(Live(State())) && nbytes > 0 && res == cp ==>
        Fits(m, nbytes, old(blocks[cp - m.overhead]))
      ensures res != 0 && (cp == 0 || nbytes > 0 || res != cp) ==> Owns(State(), res, nbytes)
      ensures Live(State()) == old(Live(State())) - Block(m, cp) + Block(m, res)
      ensures res == 0 <==>
        if cp != 0 && cp - m.overhead in old(Live(State())) then Lost(old(State()), cp - m.overhead, nbytes, sbrk)
        else Refused(old(State()), nbytes, sbrk)
      ensures cp != 0 && res != 0 ==> Moved(old(memory), memory, cp, res, Least(nbytes, Capacity(m, old(blocks[cp - m.overhead]))))
      ensures Untouched(old(memory), memory, res, nbytes)
      ensures overread <==> cp != 0 && res != 0 && res != cp && Forgotten(old(State()), cp - m.overhead, nbytes)
    {
      ghost var h, before := State(), memory;
      NoBlock(h, memory);
      hide Ok, Fits, Capacity, Size, Pow2, PageSize, Live, KeepsBlocks, Grown, Appended, Block, Owns, Least, Moved, Untouched, Copied, Refused, Lost,
        Forgotten;
      overread := false;
      if cp == 0 {
        res := Malloc(nbytes, sbrk);
        Unshifted(before, memory, res, nbytes);
        return;
      }
      OkParts(h);
      if headers[cp - m.overhead].InUse? {
        IsLive(h, cp - m.overhead);
        LiveIsRemembered(h, cp - m.overhead, nbytes);
        res := ReallocLive(cp, nbytes, sbrk);
      } else {
        NotLive(h, cp - m.overhead);
        res, overread := BringBack(cp, nbytes, sbrk, junk);
      }
    }

    /** Realloc of a live block. */
    method ReallocLive(cp: nat, nbytes: nat, sbrk: Sbrk) returns (res: nat)
      requires Valid() && cp > m.overhead && cp - m.overhead in Live(State())
      modifies this
      ensures Valid() && Grown(old(State()), State())
      ensures cp - m.overhead in old(blocks)
      ensures nbytes > 0 && Fits(m, nbytes, old(blocks[cp - m.overhead])) ==>
        res == cp && State() == old(State()) && memory == old(memory)
      ensures nbytes > 0 && res == cp ==> Fits(m, nbytes, old(blocks[cp - m.overhead]))
      ensures res != 0 && (nbytes > 0 || res != cp) ==> Owns(State(), res, nbytes)
      ensures Live(State()) == old(Live(State())) - Block(m, cp) + Block(m, res)
      ensures res == 0 <==> Lost(old(State()), cp - m.overhead, nbytes, sbrk)
      ensures res != 0 ==> Moved(old(memory), memory, cp, res, Least(nbytes, Capacity(m, old(blocks[cp - m.overhead]))))
      ensures Untouched(old(memory), memory, res, nbytes)
    {
      hide Ok, Fits, Capacity, Size, Pow2, PageSize, Live, KeepsBlocks, Grown, Appended, Block, Owns, Least, Moved, Untouched, Copied, Refused, Lost;
      ghost var h, before := State(), memory;
      NoBlock(h, memory);
      var op := cp - m.overhead;
      LiveParts(h, op);
      var i := headers[op].index;
      var onb := Offered(i);
      var lower := 0;
      if i != 0 { lower := Offered(i - 1); }
      ReallocLimits(m, nbytes, i);
      if nbytes <= onb && nbytes > lower {
        NotMoved(memory, cp, nbytes, onb);
        IsOwner(h, cp, nbytes);
        KeptIsNotLost(h, op, nbytes, sbrk);
        return cp;
      }
      res := Relocate(cp, nbytes, onb, sbrk);
      if res == cp { StillOwns(h, State(), res, nbytes); }
    }

    // ---------- Blocks that were freed already ----------

    /** findbucket: looks at the first `length` blocks of each free list. */
    method FindBucket(op: nat, length: nat) returns (i: int)
      requires Valid() && op in blocks && op !in Live(State())
      ensures blocks[op] < NBUCKETS && i == if op in Early(chains[blocks[op]], length) then blocks[op] else -1
    {
      HeapIsSafe(State(), op, op);
      OkParts(State());
      hide Ok, Live, ListsOk, BlocksOk, HeadersOk, Early;
      i := 0;
      while i < NBUCKETS
        invariant 0 <= i <= NBUCKETS && (i > blocks[op] ==> op !in Early(chains[blocks[op]], length))
      {
        EarlyIsInside(chains[i], length, op);
        var found := SearchList(i, op, length);
        if found { return; }
        i := i + 1;
      }
      return -1;
    }

    method SearchList(b: nat, op: nat, length: nat) returns (found: bool)
      requires Valid() && b < NBUCKETS
      ensures found <==> op in Early(chains[b], length)
    {
      hide Ok, ListsOk, HeadersOk, BlocksOk, ListOk, Linked, Early;
      ghost var chain := chains[b];
      ListParts(State(), b);
      var p, j := nextf[b], 0;
      assert chain[0..] == chain;
      while p != 0 && j != length
        invariant 0 <= j <= |chain| && j <= length && Linked(p, chain[j..], headers) && op !in chain[..j]
        decreases |chain| - j
      {
        NextInList(p, chain, j, headers);
        if p == op {
          EarlyHas(chain, length, j);
          return true;
        }
        p := headers[p].next;
        j := j + 1;
      }
      NextInList(p, chain, j, headers);
      EarlyIs(chain, length, j);
      return false;
    }

    /** Realloc of a block that is free.  Its bucket, and so its size, is known when it is among the first blocks of
        a free list.  Otherwise as much is copied as was asked for: `junk` stands for what lies behind all
        memory, and `overread` tells whether anything is read that does not belong to the block. */
    method BringBack(cp: nat, nbytes: nat, sbrk: Sbrk, junk: seq<Byte>) returns (res: nat, ghost overread: bool)
      requires Valid() && cp > m.overhead && cp - m.overhead in blocks && cp - m.overhead !in Live(State()) && |junk| == nbytes
      modifies this
      ensures Valid() && Grown(old(State()), State())
      ensures Live(State()) == old(Live(State())) - Block(m, cp) + Block(m, res)
      ensures res == 0 <==> Refused(old(State()), nbytes, sbrk)
      ensures res != 0 ==> Owns(State(), res, nbytes)
      ensures res != 0 ==> Moved(old(memory), memory, cp, res, Least(nbytes, Capacity(m, old(blocks[cp - m.overhead]))))
      ensures Untouched(old(memory), memory, res, nbytes)
      ensures overread <==> res != 0 && res != cp && Forgotten(old(State()), cp - m.overhead, nbytes)
    {
      hide Ok, Fits, Capacity, Size, Pow2, PageSize, Live, KeepsBlocks, Grown, Appended, Block, Owns, Moved, Untouched, Copied, Refused, Lost, Early;
      ghost var h, before, op := State(), memory, cp - m.overhead;
      BlockInside(h, op);
      OkParts(h);
      var i := FindBucket(cp - m.overhead, 1);
      if i < 0 { i := FindBucket(cp - m.overhead, SEARCH_LENGTH); }
      EarlyGrows(h.chains[h.blocks[op]], op);
      CapacityIsNat(m, h.blocks[op]);
      res := Malloc(nbytes, sbrk);
      ghost var h1 := State();
      BlocksKept(h, h, h1, op);
      FreeBefore(h, cp, res);
      overread := false;
      var n := nbytes;
      if i >= 0 {
        var onb := Offered(i);
        if onb < nbytes { n := onb; }
      }
      ghost var middle := memory;
      if res != 0 && res != cp {
        overread := n > Capacity(m, h.blocks[op]);
        OwnsParts(h1, res, nbytes);
        UsersApart(h1, op, res - m.overhead);
        CopyOn(cp, res, n, junk);
      }
      IsBroughtBack(before, middle, memory, cp, res, n, nbytes, Capacity(m, h.blocks[op]));
      assert State() == h1;
    }

    /** memcpy of bytes some of which may not belong to the source. */
    method CopyOn(src: nat, dst: nat, n: nat, junk: seq<Byte>)
      requires dst + n <= |memory| && n <= |junk|
      modifies `memory
      ensures CopiedOn(old(memory), memory, src, dst, n)
    {
      var k := 0;
      while k < n
        invariant 0 <= k <= n && CopiedOn(old(memory), memory, src, dst, k)
      {
        memory := memory[dst + k := if src + k < |memory| then memory[src + k] else junk[k]];
        k := k + 1;
      }
    }

    /** memcpy between two places that have no byte in common. */
    method Copy(src: nat, dst: nat, n: nat)
      requires src + n <= |memory| && dst + n <= |memory| && (src + n <= dst || dst + n <= src)
      modifies `memory
      ensures Copied(old(memory), memory, src, dst, n)
    {
      var k := 0;
      while k < n
        invariant 0 <= k <= n && |memory| == |old(memory)|
        invariant forall i :: dst <= i < dst + k ==> memory[i] == old(memory[src + (i - dst)])
        invariant forall i :: 0 <= i < |memory| && !(dst <= i < dst + k) ==> memory[i] == old(memory[i])
      {
        memory := memory[dst + k := memory[src + k]];
        k := k + 1;
      }
    }
  }

  lemma {:induction false} AtLeastEight(b: nat)
    ensures Pow2(b + 3) >= 8
    decreases b
  {
    if b > 0 { AtLeastEight(b - 1); }
  }

  /** The first n bytes at cp are at res now. */
  predicate Moved(before: seq<Byte>, after: seq<Byte>, cp: nat, res: nat, n: int) {
    n >= 0 ==> cp + n <= |before| && res + n <= |after| && after[res..res + n] == before[cp..cp + n]
  }

  /** Memory changes in the new block alone. */
  predicate Untouched(before: seq<Byte>, after: seq<Byte>, res: nat, nbytes: nat) {
    |before| <= |after| && forall i :: 0 <= i < |before| && !(res != 0 && res <= i < res + nbytes) ==> after[i] == before[i]
  }

  /** One byte string put in place of another one of the same length. */
  predicate Copied(before: seq<Byte>, after: seq<Byte>, src: nat, dst: nat, n: nat) {
    && |after| == |before| && src + n <= |before| && dst + n <= |before| && after[dst..dst + n] == before[src..src + n]
    && forall i :: 0 <= i < |before| && !(dst <= i < dst + n) ==> after[i] == before[i]
  }

  lemma {:induction false} IsMoved(before: seq<Byte>, middle: seq<Byte>, after: seq<Byte>, cp: nat, res: nat, n: nat, nbytes: nat)
    requires Appended(before, middle) && cp + n <= |before| && n <= nbytes
    requires if res == 0 || res == cp then after == middle else Copied(middle, after, cp, res, n)
    ensures res != 0 ==> Moved(before, after, cp, res, n)
    ensures Untouched(before, after, res, nbytes)
  {
    assert middle[cp..cp + n] == before[cp..cp + n];
  }

  /** n bytes are copied, as far as they do not lie where they are copied to. */
  predicate CopiedOn(before: seq<Byte>, after: seq<Byte>, src: nat, dst: nat, n: nat) {
    && |after| == |before| && dst + n <= |before|
    && (forall i :: 0 <= i < |before| && !(dst <= i < dst + n) ==> after[i] == before[i])
    && forall i :: dst <= i < dst + n && src + (i - dst) < |before| && !(dst <= src + (i - dst) < i) ==>
         after[i] == before[src + (i - dst)]
  }

  lemma {:induction false} IsBroughtBack(before: seq<Byte>, middle: seq<Byte>, after: seq<Byte>, cp: nat, res: nat,
                                         n: nat, nbytes: nat, cap: nat)
    requires Appended(before, middle) && cp + cap <= |before| && n <= nbytes && Least(nbytes, cap) <= n
    requires res != 0 && res != cp ==> CopiedOn(middle, after, cp, res, n) && (cp + cap <= res || res + nbytes <= cp)
    requires res == 0 || res == cp ==> after == middle
    ensures res != 0 ==> Moved(before, after, cp, res, Least(nbytes, cap))
    ensures Untouched(before, after, res, nbytes)
  {
    var k := Least(nbytes, cap);
    assert middle[cp..cp + k] == before[cp..cp + k];
    if res != 0 && res != cp { assert after[res..res + k] == middle[cp..cp + k]; }
  }

  lemma {:induction false} EarlyIsInside(chain: seq<nat>, length: nat, a: nat)
    ensures a in Early(chain, length) ==> a in chain
  {}

  lemma {:induction false} EarlyHas(chain: seq<nat>, length: nat, j: nat)
    requires j < |chain| && j < length
    ensures chain[j] in Early(chain, length)
  {}

  lemma {:induction false} EarlyIs(chain: seq<nat>, length: nat, j: nat)
    requires j <= |chain| && (j == |chain| <= length || j == length)
    ensures Early(chain, length) == chain[..j]
  {}

  lemma {:induction false} ListParts(h: Heap, b: nat)
    requires Ok(h) && b < NBUCKETS
    ensures |h.nextf| == |h.chains| == NBUCKETS && Linked(h.nextf[b], h.chains[b], h.headers) && forall i :: 0 <= i < |h.chains[b]| ==> h.chains[b][i] > 0
  {
    OkParts(h);
    assert ListOk(b, h.chains[b], h.nextf[b], h.blocks, h.headers);
    hide Ok, Linked;
  }

  /** Where a search stands in a list. */
  lemma {:induction false} NextInList(p: nat, chain: seq<nat>, j: nat, headers: map<nat, Header>)
    requires j <= |chain| && Linked(p, chain[j..], headers) && forall i :: 0 <= i < |chain| ==> chain[i] > 0
    ensures p != 0 <==> j < |chain|
    ensures p != 0 ==>
      && p == chain[j] && p in headers && headers[p].Free? && Linked(headers[p].next, chain[j + 1..], headers)
      && chain[..j + 1] == chain[..j] + [p]
  {
    if j < |chain| { assert chain[j..][1..] == chain[j + 1..]; }
  }

  lemma {:induction false} EarlyGrows(chain: seq<nat>, a: nat)
    ensures a in Early(chain, 1) ==> a in Early(chain, SEARCH_LENGTH)
  {}

  lemma {:induction false} CapacityIsNat(m: Machine, b: nat)
    requires Sane(m)
    ensures Capacity(m, b) >= 0
  {
    SmallBuckets(m, b);
    AtLeastEight(b);
  }

  /** A free block takes nothing away from the live ones. */
  lemma {:induction false} FreeBefore(h: Heap, cp: nat, res: nat)
    requires cp > h.m.overhead && cp - h.m.overhead !in Live(h)
    ensures Live(h) + Block(h.m, res) == Live(h) - Block(h.m, cp) + Block(h.m, res)
  {}

  /** Five free blocks of eight bytes on one list: the size of the last one is not found out. */
  function FiveFree(): Heap {
    Heap(Machine(0, 8), seq(NBUCKETS, b => if b == 0 then 16 else 0),
         map[16 := Free(32), 32 := Free(48), 48 := Free(64), 64 := Free(80), 80 := Free(0)], 96,
         map[16 := 0, 32 := 0, 48 := 0, 64 := 0, 80 := 0], seq(NBUCKETS, b => if b == 0 then [16, 32, 48, 64, 80] else []))
  }

  /** To bring it back with nine bytes is to read one that is not its own. */
  lemma {:induction false} FifthIsForgotten()
    ensures Ok(FiveFree()) && Forgotten(FiveFree(), 80, 9)
  {
    var h := FiveFree();
    var chain: seq<nat> := [16, 32, 48, 64, 80];
    FiveBlocks();
    FiveHeaders();
    hide Size, Pow2, Linked, BlocksOk, HeadersOk, ListOk;
    forall b | 0 <= b < NBUCKETS ensures ListOk(b, h.chains[b], h.nextf[b], h.blocks, h.headers) {
      if b == 0 { FiveLinked(); } else { EmptyListOk(b, h.blocks, h.headers); }
    }
    assert h.chains[0] == chain && chain[4] == 80 && Early(chain, SEARCH_LENGTH) == [16, 32, 48, 64];
  }

  lemma {:induction false} FiveBlocks()
    ensures var h := FiveFree(); BlocksOk(h.m, h.blocks, h.brk) && Capacity(h.m, 0) == 8
  {
    var h := FiveFree();
    assert Pow2(3) == 8 by { assert Pow2(1) == 2; }
    assert Size(h.m, 0) == 16;
    assert h.blocks.Keys == {16, 32, 48, 64, 80};
    hide Size, Pow2;
  }

  lemma {:induction false} FiveHeaders()
    ensures var h := FiveFree(); HeadersOk(h.blocks, h.headers, h.chains) && Live(h) == {}
  {
    var h := FiveFree();
    assert h.headers.Keys == h.blocks.Keys == {16, 32, 48, 64, 80};
    var chain := h.chains[0];
    assert chain[0] == 16 && chain[1] == 32 && chain[2] == 48 && chain[3] == 64 && chain[4] == 80;
  }

  lemma {:induction false} EmptyListOk(b: nat, blocks: map<nat, nat>, headers: map<nat, Header>)
    ensures ListOk(b, [], 0, blocks, headers)
  {}

  lemma {:induction false} FiveLinked()
    ensures var h := FiveFree(); ListOk(0, h.chains[0], h.nextf[0], h.blocks, h.headers)
  {
    var h := FiveFree();
    var chain, headers := h.chains[0], h.headers;
    assert chain[5..] == [] && chain[0..] == chain;
    assert Linked(0, chain[5..], headers);
    hide Linked;
    LinkedBefore(chain, 4, headers);
    LinkedBefore(chain, 3, headers);
    LinkedBefore(chain, 2, headers);
    LinkedBefore(chain, 1, headers);
    LinkedBefore(chain, 0, headers);
  }

  lemma {:induction false} LinkedBefore(chain: seq<nat>, i: nat, headers: map<nat, Header>)
    requires i < |chain| && chain[i] in headers && headers[chain[i]].Free? && Linked(headers[chain[i]].next, chain[i + 1..], headers)
    ensures Linked(chain[i], chain[i..], headers)
  {
    assert chain[i..][1..] == chain[i + 1..];
  }

  lemma {:induction false} LiveIsRemembered(h: Heap, a: nat, nbytes: nat)
    requires a in Live(h)
    ensures !Forgotten(h, a, nbytes)
  {}

  lemma {:induction false} NotMoved(memory: seq<Byte>, cp: nat, nbytes: nat, onb: int)
    requires nbytes <= onb && cp + onb <= |memory|
    ensures Moved(memory, memory, cp, cp, Least(nbytes, onb)) && Untouched(memory, memory, cp, nbytes)
  {}

  lemma {:induction false} Unshifted(before: seq<Byte>, after: seq<Byte>, res: nat, nbytes: nat)
    requires Appended(before, after)
    ensures Untouched(before, after, res, nbytes)
  {}

  lemma {:induction false} NoBlock(h: Heap, memory: seq<Byte>)
    ensures Block(h.m, 0) == {} && Live(h) + {} == Live(h) && Grown(h, h) && Appended(memory, memory)
  {}

  lemma {:induction false} FitsInTop(m: Machine, nbytes: nat, b: int)
    requires if b == -1 then nbytes > Capacity(m, TOP) else b >= 0 && Fits(m, nbytes, b)
    ensures b <= TOP < NBUCKETS
  {}

  lemma {:induction false} TooBigIsRefused(h: Heap, nbytes: nat, sbrk: Sbrk)
    requires |h.nextf| == NBUCKETS && nbytes > Capacity(h.m, TOP)
    ensures Refused(h, nbytes, sbrk)
  {}

  /** There is one bucket only that the request can come from. */
  lemma {:induction false} RefusedInBucket(h: Heap, nbytes: nat, sbrk: Sbrk, b: nat)
    requires |h.nextf| == NBUCKETS && Fits(h.m, nbytes, b)
    ensures Refused(h, nbytes, sbrk) <==> h.nextf[b] == 0 && (b == TOP || sbrk.NoRoom?)
  {
    if b < TOP { CapacityGrows(h.m, b, TOP); }
    forall c: nat | Fits(h.m, nbytes, c) ensures c == b { FitsOnce(h.m, nbytes, b, c); }
  }

  /** A block just given back can be had again. */
  lemma {:induction false} RefusedAfterRelease(h: Heap, a: nat, nbytes: nat, sbrk: Sbrk)
    requires Ok(h) && a in Live(h)
    ensures a in h.blocks && |h.nextf| == NBUCKETS && a in h.headers && h.headers[a].InUse? && h.headers[a].index < |h.chains| == |h.nextf|
    ensures Refused(Released(h, a), nbytes, sbrk) <==> Lost(h, a, nbytes, sbrk)
  {
    OkParts(h);
  }

  /** A block whose new size belongs into its bucket is not lost. */
  lemma {:induction false} KeptIsNotLost(h: Heap, a: nat, nbytes: nat, sbrk: Sbrk)
    requires |h.nextf| == NBUCKETS && a in h.blocks && Fits(h.m, nbytes, h.blocks[a])
    ensures !Lost(h, a, nbytes, sbrk)
  {
    var i := h.blocks[a];
    if i < TOP { CapacityGrows(h.m, i, TOP); }
    forall c: nat | Fits(h.m, nbytes, c) ensures c == i { FitsOnce(h.m, nbytes, i, c); }
  }

  /** One block of 8184 bytes, all memory there is: to shrink it to a single byte is to lose it. */
  lemma {:induction false} ShrinkingLoses()
    ensures
      var m := Machine(9, 8);
      var h := Heap(m, seq(NBUCKETS, _ => 0), map[8 := InUse(9)], 8200, map[8 := 9], seq(NBUCKETS, _ => []));
      Ok(h) && Live(h) == {8} && Fits(m, 8184, 9) && Lost(h, 8, 1, NoRoom)
  {
    var m := Machine(9, 8);
    var h := Heap(m, seq(NBUCKETS, _ => 0), map[8 := InUse(9)], 8200, map[8 := 9], seq(NBUCKETS, _ => []));
    assert Pow2(3) == 8 && Pow2(4) == 16 by { assert Pow2(1) == 2; }
    assert Pow2(10) == 1024 by { assert Pow2(5) == 32; }
    assert Pow2(11) == 2 * Pow2(10);
    assert Pow2(12) == 2 * Pow2(11);
    assert Capacity(m, 0) == 0 && Capacity(m, 1) == 8 && Capacity(m, 8) == 2040 && Capacity(m, 9) == 8184;
    assert Fits(m, 1, 1);
    forall b | 0 <= b < NBUCKETS ensures ListOk(b, h.chains[b], h.nextf[b], h.blocks, h.headers) {}
  }

  lemma {:induction false} NowOwns(h: Heap, h1: Heap, h2: Heap, cp: nat, b: nat, nbytes: nat)
    requires Grown(h, h1) && h2.m == h.m && h2.blocks == h1.blocks && h2.brk == h1.brk && Live(h1) == Live(h) && Fits(h.m, nbytes, b)
    requires
      var a := cp - h.m.overhead;
      && a > 0 && a in h1.blocks && h1.blocks[a] == b && cp + Capacity(h.m, b) <= h1.brk
      && a !in Live(h1) && Live(h2) == Live(h1) + {a}
    ensures Grown(h, h2) && Owns(h2, cp, nbytes) && Live(h2) == Live(h) + Block(h.m, cp) && Block(h.m, cp) !! Live(h)
  {
    hide Fits, Capacity, Live;
  }

  lemma {:induction false} OwnsParts(h: Heap, cp: nat, n: nat)
    requires Owns(h, cp, n)
    ensures
      var a := cp - h.m.overhead;
      a > 0 && a in Live(h) && a in h.blocks && n <= Capacity(h.m, h.blocks[a]) && cp + Capacity(h.m, h.blocks[a]) <= h.brk
    ensures Fits(h.m, n, h.blocks[cp - h.m.overhead]) && Block(h.m, cp) == {cp - h.m.overhead}
  {}

  lemma {:induction false} IsOwner(h: Heap, cp: nat, n: nat)
    requires cp > h.m.overhead && cp - h.m.overhead in Live(h) && cp - h.m.overhead in h.blocks
    requires cp + Capacity(h.m, h.blocks[cp - h.m.overhead]) <= h.brk && Fits(h.m, n, h.blocks[cp - h.m.overhead])
    ensures Owns(h, cp, n) && Block(h.m, cp) == {cp - h.m.overhead}
  {}

  lemma {:induction false} StillOwns(h: Heap, h2: Heap, cp: nat, n: nat)
    requires Grown(h, h2) && Owns(h2, cp, n) && cp - h.m.overhead in h.blocks
    ensures Fits(h.m, n, h.blocks[cp - h.m.overhead])
  {}

  lemma {:induction false} BlocksKept(h: Heap, h1: Heap, h2: Heap, a: nat)
    requires a in h.blocks && h1.m == h.m && h1.blocks == h.blocks && h1.brk == h.brk && Grown(h1, h2)
    ensures a in h2.blocks && h2.blocks[a] == h.blocks[a] && Grown(h, h2)
  {}

  lemma {:induction false} LiveParts(h: Heap, a: nat)
    requires Ok(h) && a in Live(h)
    ensures Sane(h.m) && a in h.headers && h.headers[a].InUse? && a in h.blocks && h.headers[a].index == h.blocks[a] <= TOP && a > 0
    ensures a + h.m.overhead + Capacity(h.m, h.blocks[a]) <= h.brk
  {
    OkParts(h);
  }

  /** The users' parts of two blocks have no byte in common. */
  lemma {:induction false} UsersApart(h: Heap, a: nat, b: nat)
    requires Ok(h) && a in h.blocks && b in h.blocks && a != b
    ensures
      var o := h.m.overhead;
      || a + o + Capacity(h.m, h.blocks[a]) <= b + o
      || b + o + Capacity(h.m, h.blocks[b]) <= a + o
  {}

  lemma {:induction false} NotLive(h: Heap, a: nat)
    requires a in h.headers && h.headers[a].Free?
    ensures a !in Live(h)
  {}

  lemma {:induction false} IsLive(h: Heap, a: nat)
    requires a in h.headers && h.headers[a].InUse?
    ensures a in Live(h)
  {}

  lemma {:induction false} BlockInside(h: Heap, a: nat)
    requires Ok(h) && a in h.blocks
    ensures a > 0 && a + h.m.overhead + Capacity(h.m, h.blocks[a]) <= h.brk && h.blocks[a] < TOP
  {}

  lemma {:induction false} PageInPieces(k: nat, j: nat)
    requires k > 0
    ensures Pow2(k) > 1 && Pow2(j) > 0 && Pow2(k) * Pow2(j) == Pow2(k + j) && Pow2(k + j) / Pow2(j) == Pow2(k)
  {
    PowAdds(k, j);
    PowGrows(0, k);
    var n, sz := Pow2(k), Pow2(j);
    hide Pow2;
    DivisionIsUnique(n * sz, sz, n, 0);
  }

  /** The amount morecore asks for is what the pieces take. */
  lemma {:induction false} PiecesFit(m: Machine, b: nat)
    requires b < TOP
    ensures
      var sz, n := Pow2(b + 3), Pieces(m, b);
      && n > 0 && Size(m, b) > 0 && (sz < PageSize(m) <==> b < m.pageBucket)
      && (sz < PageSize(m) ==> PageSize(m) / sz == n && n > 1 && n * Size(m, b) == PageSize(m) && Size(m, b) == sz)
      && (sz >= PageSize(m) ==> n == 1 && Size(m, b) == sz + PageSize(m))
  {
    SmallBuckets(m, b);
    if b < m.pageBucket {
      PageInPieces(m.pageBucket - b, b + 3);
      assert m.pageBucket - b + (b + 3) == m.pageBucket + 3;
    } else {
      hide Pow2;
    }
  }

  /** The loop of morecore: every block is linked to the next one. */
  method LinkBlocks(headers0: map<nat, Header>, at: nat, width: nat, n: nat) returns (headers: map<nat, Header>)
    requires width > 0 && n > 0
    ensures headers == headers0 + CarvedHeaders(at, width, n)
  {
    hide CarvedHeaders;
    headers := headers0;
    var op: nat, nblks: nat := at, n;
    while nblks > 1
      invariant 1 <= nblks <= n
      invariant headers + CarvedHeaders(op, width, nblks) == headers0 + CarvedHeaders(at, width, n)
    {
      LinkStep(headers, op, width, nblks);
      headers := headers[op := Free(op + width)];
      op := op + width;
      nblks := nblks - 1;
    }
    LastHeader(op, width);
    headers := headers[op := Free(0)];   // fresh memory is zero
  }

  lemma {:induction false} LastHeader(op: nat, width: nat)
    ensures CarvedHeaders(op, width, 1) == map[op := Free(0)]
  {}

  lemma {:induction false} LinkStep(headers: map<nat, Header>, op: nat, width: nat, n: nat)
    requires width > 0 && n > 1
    ensures headers[op := Free(op + width)] + CarvedHeaders(op + width, width, n - 1) == headers + CarvedHeaders(op, width, n)
  {
    var rest := CarvedHeaders(op + width, width, n - 1);
    assert CarvedHeaders(op, width, n) == rest[op := Free(op + width)];
    hide CarvedHeaders, CarvedBlocks;
    CarvedInside(op + width, width, n - 1, 0);
    assert op !in rest;
    MergeOne(headers, rest, op, Free(op + width));
  }

  lemma {:induction false} MergeOne(headers: map<nat, Header>, rest: map<nat, Header>, op: nat, f: Header)
    requires op !in rest
    ensures headers[op := f] + rest == headers + rest[op := f]
  {}
}
