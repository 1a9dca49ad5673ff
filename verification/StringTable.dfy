/** The strings of a program that is compiled (src/compiler.c): a table with reference counts, hash chains
    that run through it, and free places that are used again. */
module StringTable {
  import opened Basics

  const CHAINS: nat := 256

  /** Exclusive or of the lowest n bits. */
  function Xor(a: nat, b: nat, n: nat): (r: nat)
    ensures r < Pow2(n)
    ensures a < Pow2(n) && b < Pow2(n) ==> (r == 0 <==> a == b)
  {
    if n == 0 then 0 else 2 * Xor(a / 2, b / 2, n - 1) + if a % 2 == b % 2 then 0 else 1
  }

  lemma {:induction false} XorCancels(a: nat, b: nat, c: nat, n: nat)
    requires a < Pow2(n) && b < Pow2(n) && c < Pow2(n)
    ensures Xor(a, c, n) == Xor(b, c, n) <==> a == b
    ensures Xor(c, a, n) == Xor(c, b, n) <==> a == b
    ensures Xor(c, a, n) == c <==> a == 0
  {
    if n > 0 { XorCancels(a / 2, b / 2, c / 2, n - 1); }
  }

  /** STRING_HASH of the address of a shared string: its first and its third byte, combined.  The other two
      are lost when the first half of the macro is stored in an unsigned char. */
  function Hash(str: nat): (h: nat)
    ensures h < CHAINS
  {
    EightBits();
    Xor(str % 256, str / 0x1_0000 % 256, 8)
  }

  /** What the macro computes when its variable has room for the address. */
  function FullHash(str: nat): nat {
    Xor(Xor(str % 256, str / 0x1_0000 % 256, 8), Xor(str / 0x100 % 256, str / 0x100_0000 % 256, 8), 8)
  }

  lemma {:induction false} EightBits()
    ensures Pow2(8) == 256
  {
    assert Pow2(4) == 16;
  }

  /** The two hashes agree exactly when the lost bytes cancel out. */
  lemma {:induction false} BytesAreLost(str: nat)
    ensures FullHash(str) == Hash(str) <==> str / 0x100 % 256 == str / 0x100_0000 % 256
  {
    EightBits();
    hide Pow2;
    XorCancels(Xor(str / 0x100 % 256, str / 0x100_0000 % 256, 8), 0, Hash(str), 8);
  }

  /** Strings within the same 64 KB share a chain exactly when their first bytes are the same. */
  lemma {:induction false} NeighboursCollide(a: nat, b: nat)
    requires a / 0x1_0000 == b / 0x1_0000
    ensures Hash(a) == Hash(b) <==> a % 256 == b % 256
  {
    EightBits();
    hide Pow2;
    XorCancels(a % 256, b % 256, a / 0x1_0000 % 256, 8);
  }

  lemma {:induction false} AddressBytes(a: nat)
    ensures a == a % 0x100 + 0x100 * (a / 0x100 % 256) + 0x1_0000 * (a / 0x1_0000)
    ensures a / 0x100_0000 == a / 0x1_0000 / 0x100
  {
    var q := a / 0x100;
    var r := a % 0x100 + 0x100 * (q % 0x100);
    Divides(a, 0x1_0000, q / 0x100, r);
    Divides(a, 0x100_0000, q / 0x100 / 0x100, 0x1_0000 * (q / 0x100 % 0x100) + r);
  }

  lemma {:induction false} Divides(x: nat, c: nat, q: nat, r: nat)
    requires r < c && x == c * q + r
    ensures x / c == q
  {
    DivisionIsUnique(x, c, q, r);
  }

  /** Addresses that differ in their second byte alone share a chain; the whole macro keeps them apart. */
  lemma {:induction false} SecondByteIsLost(a: nat, b: nat)
    requires a % 0x100 == b % 0x100 && a / 0x1_0000 == b / 0x1_0000 && a != b
    ensures Hash(a) == Hash(b) && FullHash(a) != FullHash(b)
  {
    EightBits();
    hide Pow2, Xor;
    var b1, b1', b3 := a / 0x100 % 256, b / 0x100 % 256, a / 0x100_0000 % 256;
    AddressBytes(a);
    AddressBytes(b);
    XorCancels(b1, b1', b3, 8);
    XorCancels(Xor(b1, b3, 8), Xor(b1', b3, 8), Hash(a), 8);
  }

  /** strings[i] is the address of a string, or 0 when the place is free; next, idx and freed hold -1 for
      none.  chains are the places that the links of a hash chain run through. */
  datatype Table = Table(strings: seq<nat>, next: seq<int>, refs: seq<int>, idx: seq<int>, tags: seq<bool>,
                         freed: int, chains: seq<seq<nat>>)

  /** The links from `first` run through the chain and end with -1. */
  predicate Linked(first: int, chain: seq<nat>, next: seq<int>)
    decreases |chain|
  {
    if chain == [] then first == -1
    else first == chain[0] && chain[0] < |next| && Linked(next[chain[0]], chain[1..], next)
  }

  lemma {:induction false} LinkedElsewhere(first: int, chain: seq<nat>, next: seq<int>, next': seq<int>)
    requires Linked(first, chain, next)
    requires forall i :: 0 <= i < |chain| && chain[i] < |next| ==> chain[i] < |next'| && next'[chain[i]] == next[chain[i]]
    ensures Linked(first, chain, next')
    decreases |chain|
  {
    if chain != [] {
      assert forall i :: 0 <= i < |chain| - 1 ==> chain[1..][i] == chain[i + 1];
      LinkedElsewhere(next[chain[0]], chain[1..], next, next');
    }
  }

  /** The chain of one hash value: its places hold strings of that value, each place once. */
  predicate ChainOk(h: nat, chain: seq<nat>, first: int, tag: bool, strings: seq<nat>, next: seq<int>) {
    && (tag <==> chain != []) && (tag ==> Linked(first, chain, next)) && Distinct(chain)
    && forall i :: 0 <= i < |chain| ==> chain[i] < |strings| && strings[chain[i]] != 0 && Hash(strings[chain[i]]) == h
  }

  predicate ChainsOk(t: Table)
    requires |t.idx| == |t.tags| == |t.chains| == CHAINS
  {
    forall h :: 0 <= h < CHAINS ==> ChainOk(h, t.chains[h], t.idx[h], t.tags[h], t.strings, t.next)
  }

  /** Every string is in the table once, on the chain of its hash value, and somebody refers to it. */
  predicate SlotsOk(strings: seq<nat>, refs: seq<int>, chains: seq<seq<nat>>)
    requires |refs| == |strings| && |chains| == CHAINS
  {
    && (forall i :: 0 <= i < |strings| && strings[i] != 0 ==> i in chains[Hash(strings[i])] && refs[i] >= 1)
    && (forall i, j :: 0 <= i < j < |strings| && strings[i] != 0 ==> strings[i] != strings[j])
  }

  /** freed is the least free place, or -1. */
  predicate FreedOk(strings: seq<nat>, freed: int) {
    if freed == -1 then forall i :: 0 <= i < |strings| ==> strings[i] != 0
    else 0 <= freed < |strings| && strings[freed] == 0 && forall i :: 0 <= i < freed ==> strings[i] != 0
  }

  predicate Ok(t: Table) {
    && |t.next| == |t.refs| == |t.strings| && |t.idx| == |t.tags| == |t.chains| == CHAINS
    && ChainsOk(t) && SlotsOk(t.strings, t.refs, t.chains) && FreedOk(t.strings, t.freed)
  }

  // ---------- The table as a map ----------

  datatype Entry = Entry(place: nat, refs: int)

  /** What the table stands for: the place and the number of references of every string. */
  function Contents(t: Table): map<nat, Entry>
    requires Ok(t)
  {
    map i | 0 <= i < |t.strings| && t.strings[i] != 0 :: t.strings[i] := Entry(i, t.refs[i])
  }

  /** The map says where each string is, and how often it is referred to. */
  ghost predicate Describes(m: map<nat, Entry>, strings: seq<nat>, refs: seq<int>)
    requires |refs| == |strings|
  {
    && (forall i :: 0 <= i < |strings| && strings[i] != 0 ==> strings[i] in m && m[strings[i]] == Entry(i, refs[i]))
    && (forall s :: s in m ==> s != 0 && m[s].place < |strings| && strings[m[s].place] == s)
  }

  lemma {:induction false} ContentsDescribe(t: Table)
    requires Ok(t)
    ensures Describes(Contents(t), t.strings, t.refs)
  {
    hide Hash, ChainsOk;
  }

  lemma {:induction false} ContentsIs(t: Table, m: map<nat, Entry>)
    requires Ok(t) && Describes(m, t.strings, t.refs)
    ensures Contents(t) == m
  {
    ContentsDescribe(t);
    hide Ok, Contents;
  }

  /** One place is written. */
  lemma {:induction false} DescribesOneMore(m: map<nat, Entry>, strings: seq<nat>, refs: seq<int>, strings': seq<nat>, refs': seq<int>,
                                            i: nat, str: nat, count: int)
    requires |refs| == |strings| && |strings'| == |refs'| == (if i == |strings| then i + 1 else |strings|) && i <= |strings|
    requires Describes(m, strings, refs) && str != 0 && strings'[i] == str && refs'[i] == count
    requires forall j :: 0 <= j < |strings| && j != i ==> strings'[j] == strings[j] && refs'[j] == refs[j] && strings[j] != str
    requires i < |strings| ==> strings[i] == 0 || strings[i] == str
    ensures Describes(m[str := Entry(i, count)], strings', refs')
  {
    var m' := m[str := Entry(i, count)];
    forall s | s in m' ensures s != 0 && m'[s].place < |strings'| && strings'[m'[s].place] == s {
      if s != str { assert strings[m[s].place] == s; }
    }
  }

  lemma {:induction false} OkParts(t: Table)
    requires Ok(t)
    ensures |t.next| == |t.refs| == |t.strings| && |t.idx| == |t.tags| == |t.chains| == CHAINS
    ensures ChainsOk(t) && SlotsOk(t.strings, t.refs, t.chains) && FreedOk(t.strings, t.freed)
    ensures -1 <= t.freed < |t.strings|
  {}

  lemma {:induction false} ChainAt(t: Table, h: nat)
    requires Ok(t) && h < CHAINS
    ensures ChainOk(h, t.chains[h], t.idx[h], t.tags[h], t.strings, t.next)
  {}

  lemma {:induction false} SlotAt(t: Table, i: nat)
    requires Ok(t) && i < |t.strings| && t.strings[i] != 0
    ensures i in t.chains[Hash(t.strings[i])] && t.refs[i] >= 1 && t.strings[i] in Contents(t) && Contents(t)[t.strings[i]] == Entry(i, t.refs[i])
  {}

  /** A string has one place, every place has one chain, and the tag of a chain says whether it has any. */
  lemma {:induction false} PlacesAreChained(t: Table, i: nat, h: nat)
    requires Ok(t) && i < |t.strings| && h < CHAINS
    ensures i in t.chains[h] <==> t.strings[i] != 0 && Hash(t.strings[i]) == h
    ensures t.tags[h] <==> exists j :: 0 <= j < |t.strings| && t.strings[j] != 0 && Hash(t.strings[j]) == h
  {
    ChainAt(t, h);
    hide Hash, Linked;
    if t.tags[h] {
      var j := t.chains[h][0];
      assert t.strings[j] != 0 && Hash(t.strings[j]) == h;
    }
    if j :| 0 <= j < |t.strings| && t.strings[j] != 0 && Hash(t.strings[j]) == h {
      SlotAt(t, j);
    }
  }

  // ---------- Steps ----------

  /** A chain does not notice changes elsewhere. */
  lemma {:induction false} ChainKeeps(h: nat, chain: seq<nat>, first: int, tag: bool, strings: seq<nat>, next: seq<int>,
                                      strings': seq<nat>, next': seq<int>)
    requires ChainOk(h, chain, first, tag, strings, next) && |next| == |strings| && |next'| == |strings'|
    requires forall i :: 0 <= i < |chain| && chain[i] < |strings| ==>
      chain[i] < |strings'| && strings'[chain[i]] == strings[chain[i]] && next'[chain[i]] == next[chain[i]]
    ensures ChainOk(h, chain, first, tag, strings', next')
  {
    hide Hash;
    if tag {
      LinkedElsewhere(first, chain, next, next');
      hide Linked;
    }
  }

  lemma {:induction false} MoreReferences(strings: seq<nat>, refs: seq<int>, chains: seq<seq<nat>>, i: nat, count: int)
    requires |refs| == |strings| && |chains| == CHAINS && SlotsOk(strings, refs, chains) && i < |refs| && count >= 1
    ensures SlotsOk(strings, refs[i := count], chains)
  {
    hide Hash;
  }

  lemma {:induction false} OnlyOnce(t: Table, i: nat)
    requires Ok(t) && i < |t.strings| && t.strings[i] != 0
    ensures forall j :: 0 <= j < |t.strings| && j != i ==> t.strings[j] != t.strings[i]
  {
    OkParts(t);
    hide Hash, ChainsOk;
  }

  /** One more reference to the string at i, or one less. */
  function Recounted(t: Table, i: nat, refs: int): Table
    requires i < |t.refs|
  {
    t.(refs := t.refs[i := refs])
  }

  lemma {:induction false} RecountedIsOk(t: Table, i: nat, refs: int)
    requires Ok(t) && i < |t.strings| && t.strings[i] != 0 && refs >= 1
    ensures Ok(Recounted(t, i, refs)) && Contents(Recounted(t, i, refs)) == Contents(t)[t.strings[i] := Entry(i, refs)]
  {
    OkParts(t);
    var t' := Recounted(t, i, refs);
    assert ChainsOk(t') by {
      forall h | 0 <= h < CHAINS ensures ChainOk(h, t'.chains[h], t'.idx[h], t'.tags[h], t'.strings, t'.next) { ChainAt(t, h); }
    }
    hide ChainsOk, ChainOk, Hash;
    OnlyOnce(t, i);
    ContentsDescribe(t);
    hide Contents, Ok, Describes, SlotsOk, FreedOk;
    assert SlotsOk(t'.strings, t'.refs, t'.chains) by { MoreReferences(t.strings, t.refs, t.chains, i, refs); }
    OkFrom(t');
    DescribesOneMore(Contents(t), t.strings, t.refs, t'.strings, t'.refs, i, t.strings[i], refs);
    ContentsIs(t', Contents(t)[t.strings[i] := Entry(i, refs)]);
  }

  /** The least free place from i on, or -1. */
  function NextFree(strings: seq<nat>, i: nat): (f: int)
    requires i <= |strings|
    ensures if f == -1 then forall j :: i <= j < |strings| ==> strings[j] != 0
            else i <= f < |strings| && strings[f] == 0 && forall j :: i <= j < f ==> strings[j] != 0
    decreases |strings| - i
  {
    if i == |strings| then -1 else if strings[i] == 0 then i else NextFree(strings, i + 1)
  }

  function Place(t: Table): int { if t.freed >= 0 then t.freed else |t.strings| }

  /** What the head of a chain links to. */
  function Head(t: Table, h: nat): int
    requires h < |t.tags| && h < |t.idx|
  {
    if t.tags[h] then t.idx[h] else -1
  }

  function Put<T>(s: seq<T>, i: nat, x: T): (r: seq<T>)
    requires i <= |s|
    ensures |r| == (if i == |s| then |s| + 1 else |s|) && r[i] == x && forall j :: 0 <= j < |s| && j != i ==> r[j] == s[j]
  {
    if i == |s| then s + [x] else s[i := x]
  }

  /** A new string takes the first free place, or a new one, and comes first on its chain. */
  function Inserted(t: Table, str: nat): Table
    requires Ok(t)
  {
    OkParts(t);
    var h, i := Hash(str), Place(t);
    Table(Put(t.strings, i, str), Put(t.next, i, Head(t, h)), Put(t.refs, i, 1), t.idx[h := i], t.tags[h := true],
          if t.freed >= 0 then NextFree(t.strings, i + 1) else -1, t.chains[h := [i] + t.chains[h]])
  }

  lemma {:induction false} InsertedIsOk(t: Table, str: nat)
    requires Ok(t) && str != 0 && str !in Contents(t)
    ensures Ok(Inserted(t, str)) && Contents(Inserted(t, str)) == Contents(t)[str := Entry(Place(t), 1)]
  {
    OkParts(t);
    var t', h, i := Inserted(t, str), Hash(str), Place(t);
    InsertedChains(t, str);
    InsertedSlots(t, str);
    hide ChainsOk, SlotsOk, Hash;
    assert FreedOk(t'.strings, t'.freed);
    InsertedContents(t, str);
  }

  lemma {:induction false} NotYet(t: Table, str: nat)
    requires Ok(t) && str != 0 && str !in Contents(t)
    ensures forall j :: 0 <= j < |t.strings| ==> t.strings[j] != str
  {
    forall j | 0 <= j < |t.strings| && t.strings[j] != 0 ensures t.strings[j] != str { SlotAt(t, j); }
  }

  lemma {:induction false} InsertedChains(t: Table, str: nat)
    requires Ok(t) && str != 0
    ensures ChainsOk(Inserted(t, str))
  {
    OkParts(t);
    var t', h0, p := Inserted(t, str), Hash(str), Place(t);
    hide Hash;
    forall h | 0 <= h < CHAINS ensures ChainOk(h, t'.chains[h], t'.idx[h], t'.tags[h], t'.strings, t'.next) {
      ChainAt(t, h);
      ChainKeeps(h, t.chains[h], t.idx[h], t.tags[h], t.strings, t.next, t'.strings, t'.next);
      if h == h0 { LongerChain(h, t.chains[h], t.idx[h], t.tags[h], t'.strings, t'.next, p); }
    }
  }

  lemma {:induction false} LongerChain(h: nat, chain: seq<nat>, first: int, tag: bool, strings: seq<nat>, next: seq<int>, p: nat)
    requires ChainOk(h, chain, first, tag, strings, next) && p < |strings| == |next| && p !in chain
    requires strings[p] != 0 && Hash(strings[p]) == h && next[p] == if tag then first else -1
    ensures ChainOk(h, [p] + chain, p, true, strings, next)
  {
    hide Hash;
    assert ([p] + chain)[1..] == chain;
    assert Linked(next[p], chain, next);
  }

  lemma {:induction false} InsertedSlots(t: Table, str: nat)
    requires Ok(t) && str != 0 && str !in Contents(t)
    ensures var t' := Inserted(t, str); SlotsOk(t'.strings, t'.refs, t'.chains)
  {
    OkParts(t);
    NotYet(t, str);
    var t' := Inserted(t, str);
    hide Hash, ChainsOk, Ok, Contents, NextFree;
    MoreSlots(t.strings, t.refs, t.chains, t'.strings, t'.refs, t'.chains, Place(t), str);
  }

  lemma {:induction false} MoreSlots(strings: seq<nat>, refs: seq<int>, chains: seq<seq<nat>>,
                                     strings': seq<nat>, refs': seq<int>, chains': seq<seq<nat>>, p: nat, str: nat)
    requires |refs| == |strings| && |refs'| == |strings'| && |chains| == |chains'| == CHAINS && SlotsOk(strings, refs, chains)
    requires p <= |strings| && |strings'| == (if p == |strings| then p + 1 else |strings|) && strings'[p] == str && refs'[p] == 1
    requires forall i :: 0 <= i < |strings| && i != p ==> strings'[i] == strings[i] && refs'[i] == refs[i]
    requires forall i :: 0 <= i < |strings| ==> strings[i] != str
    requires chains' == chains[Hash(str) := [p] + chains[Hash(str)]]
    ensures SlotsOk(strings', refs', chains')
  {
    hide Hash;
  }

  lemma {:induction false} InsertedContents(t: Table, str: nat)
    requires Ok(t) && str != 0 && str !in Contents(t) && Ok(Inserted(t, str))
    ensures Contents(Inserted(t, str)) == Contents(t)[str := Entry(Place(t), 1)]
  {
    OkParts(t);
    var t', p := Inserted(t, str), Place(t);
    NotYet(t, str);
    ContentsDescribe(t);
    hide Hash, Ok, NextFree, Contents, Describes;
    DescribesOneMore(Contents(t), t.strings, t.refs, t'.strings, t'.refs, p, str, 1);
    ContentsIs(t', Contents(t)[str := Entry(p, 1)]);
  }

  lemma {:induction false} LinksSkip(first: int, chain: seq<nat>, next: seq<int>, k: nat)
    requires Linked(first, chain, next) && Distinct(chain) && 0 < k < |chain|
    ensures chain[k - 1] < |next| && chain[k] < |next|
    ensures Linked(first, Dropped(chain, k), next[chain[k - 1] := next[chain[k]]])
    decreases k
  {
    var rest := chain[1..];
    assert forall i :: 0 <= i < |rest| ==> rest[i] == chain[i + 1];
    if k == 1 {
      var next' := next[chain[0] := next[chain[1]]];
      assert rest[1..] == chain[2..];
      LinkedElsewhere(next[chain[1]], chain[2..], next, next');
      assert Dropped(chain, 1)[1..] == chain[2..];
    } else {
      LinksSkip(next[chain[0]], rest, next, k - 1);
      assert Dropped(chain, k)[1..] == Dropped(rest, k - 1);
    }
  }

  lemma {:induction false} ChainPlaces(first: int, chain: seq<nat>, next: seq<int>)
    requires Linked(first, chain, next)
    ensures forall i :: 0 <= i < |chain| ==> chain[i] < |next|
    decreases |chain|
  {
    if chain != [] {
      ChainPlaces(next[chain[0]], chain[1..], next);
      assert forall i :: 0 < i < |chain| ==> chain[i] == chain[1..][i - 1];
    }
  }

  /** num is the k-th place of its chain. */
  predicate IsAt(t: Table, num: nat, k: nat)
    requires Ok(t)
  {
    && num < |t.strings| && t.strings[num] != 0
    && (var chain := t.chains[Hash(t.strings[num])]; k < |chain| && chain[k] == num && (k > 0 ==> chain[k - 1] < |t.next|))
  }

  lemma {:induction false} PlaceInChain(t: Table, num: nat) returns (k: nat)
    requires Ok(t) && num < |t.strings| && t.strings[num] != 0
    ensures IsAt(t, num, k)
  {
    var h := Hash(t.strings[num]);
    SlotAt(t, num);
    ChainAt(t, h);
    k :| 0 <= k < |t.chains[h]| && t.chains[h][k] == num;
    ChainPlaces(t.idx[h], t.chains[h], t.next);
  }

  /** The table without the place, in its links; the place itself is still there. */
  function Unlinked(t: Table, num: nat, k: nat): Table
    requires Ok(t) && IsAt(t, num, k)
  {
    var h := Hash(t.strings[num]);
    var chain, after := t.chains[h], t.next[num];
    t.(next := if k == 0 then t.next else t.next[chain[k - 1] := after],
       idx := if k == 0 then t.idx[h := after] else t.idx,
       tags := if k == 0 && after == -1 then t.tags[h := false] else t.tags,
       chains := t.chains[h := Dropped(chain, k)])
  }

  /** The place becomes free, or, when it is the last one, the table shorter. */
  function Cleared(t: Table, num: nat): Table
    requires num < |t.strings| == |t.next| == |t.refs|
  {
    var top := |t.strings| - 1;
    if num == top then t.(strings := t.strings[..top], refs := t.refs[..top], next := t.next[..top])
    else t.(strings := t.strings[num := 0], refs := t.refs[num := 0],
            freed := if num < t.freed || t.freed == -1 then num else t.freed)
  }

  lemma {:induction false} ErasedIsOk(t: Table, num: nat, k: nat)
    requires Ok(t) && IsAt(t, num, k)
    ensures
      var t' := Cleared(Unlinked(t, num, k), num);
      Ok(t') && Contents(t') == Contents(t) - {t.strings[num]}
  {
    OkParts(t);
    ErasedShape(t, num, k);
    ErasedChains(t, num, k);
    ErasedSlots(t, num, k);
    ErasedFreed(t.strings, t.freed, num);
    hide Ok, ChainsOk, SlotsOk, Hash, IsAt, FreedOk, Contents, Unlinked, Cleared;
    var t' := Cleared(Unlinked(t, num, k), num);
    OkFrom(t');
    ErasedContents(t, t', num);
  }

  lemma {:induction false} UnlinkedShape(t: Table, num: nat, k: nat)
    requires Ok(t) && IsAt(t, num, k)
    ensures var u := Unlinked(t, num, k); num < |u.strings| == |u.next| == |u.refs|
  {
    OkParts(t);
    hide Hash, ChainsOk, SlotsOk, FreedOk;
  }

  lemma {:induction false} ErasedContents(t: Table, t': Table, num: nat)
    requires Ok(t) && Ok(t') && num < |t.strings| && t.strings[num] != 0 && |t.refs| == |t.strings|
    requires t'.strings == if num == |t.strings| - 1 then t.strings[..num] else t.strings[num := 0]
    requires t'.refs == if num == |t.strings| - 1 then t.refs[..num] else t.refs[num := 0]
    ensures Contents(t') == Contents(t) - {t.strings[num]}
  {
    hide Ok, Contents, Describes;
    OnlyOnce(t, num);
    ContentsDescribe(t);
    DescribesOneLess(Contents(t), t.strings, t.refs, t'.strings, t'.refs, num);
    ContentsIs(t', Contents(t) - {t.strings[num]});
  }

  lemma {:induction false} OkFrom(t: Table)
    requires |t.next| == |t.refs| == |t.strings| && |t.idx| == |t.tags| == |t.chains| == CHAINS
    requires ChainsOk(t) && SlotsOk(t.strings, t.refs, t.chains) && FreedOk(t.strings, t.freed)
    ensures Ok(t)
  {}

  lemma {:induction false} ErasedShape(t: Table, num: nat, k: nat)
    requires Ok(t) && IsAt(t, num, k)
    ensures
      var t' := Cleared(Unlinked(t, num, k), num);
      && num < |t.strings| && t.strings[num] != 0
      && |t'.next| == |t'.refs| == |t'.strings| && |t'.idx| == |t'.tags| == |t'.chains| == CHAINS
      && t'.strings == (if num == |t.strings| - 1 then t.strings[..num] else t.strings[num := 0])
      && t'.refs == (if num == |t.strings| - 1 then t.refs[..num] else t.refs[num := 0])
      && (var h := Hash(t.strings[num]); k < |t.chains[h]| && t.chains[h][k] == num && t'.chains == t.chains[h := Dropped(t.chains[h], k)])
      && t'.freed == if num == |t.strings| - 1 then t.freed else if num < t.freed || t.freed == -1 then num else t.freed
  {
    OkParts(t);
    hide Hash, ChainsOk, SlotsOk, FreedOk;
  }

  lemma {:induction false} ErasedFreed(strings: seq<nat>, freed: int, num: nat)
    requires FreedOk(strings, freed) && num < |strings| && strings[num] != 0
    ensures
      if num == |strings| - 1 then FreedOk(strings[..num], freed)
      else FreedOk(strings[num := 0], if num < freed || freed == -1 then num else freed)
  {}

  lemma {:induction false} DescribesOneLess(m: map<nat, Entry>, strings: seq<nat>, refs: seq<int>, strings': seq<nat>, refs': seq<int>, num: nat)
    requires |refs| == |strings| && |refs'| == |strings'| && Describes(m, strings, refs) && num < |strings| && strings[num] != 0
    requires forall j :: 0 <= j < |strings| && j != num ==> strings[j] != strings[num]
    requires |strings'| == (if num == |strings| - 1 then num else |strings|) && (num < |strings'| ==> strings'[num] == 0)
    requires forall j :: 0 <= j < |strings'| && j != num ==> strings'[j] == strings[j] && refs'[j] == refs[j]
    ensures Describes(m - {strings[num]}, strings', refs')
  {
    var m' := m - {strings[num]};
    forall s | s in m' ensures s != 0 && m'[s].place < |strings'| && strings'[m'[s].place] == s {
      assert strings[m[s].place] == s;
    }
  }

  lemma {:induction false} ErasedChains(t: Table, num: nat, k: nat)
    requires Ok(t) && IsAt(t, num, k)
    ensures ChainsOk(Cleared(Unlinked(t, num, k), num))
  {
    OkParts(t);
    var u, h0 := Unlinked(t, num, k), Hash(t.strings[num]);
    var t' := Cleared(u, num);
    hide Hash, Linked, Ok, IsAt, SlotsOk, ChainOk;
    forall h | 0 <= h < CHAINS ensures ChainOk(h, t'.chains[h], t'.idx[h], t'.tags[h], t'.strings, t'.next) {
      ErasedChain(t, num, k, h);
    }
  }

  lemma {:induction false} ErasedChain(t: Table, num: nat, k: nat, h: nat)
    requires Ok(t) && IsAt(t, num, k) && h < CHAINS
    ensures
      var t' := Cleared(Unlinked(t, num, k), num);
      |t'.next| == |t'.strings| && ChainOk(h, t'.chains[h], t'.idx[h], t'.tags[h], t'.strings, t'.next)
  {
    OkParts(t);
    var u, h0 := Unlinked(t, num, k), Hash(t.strings[num]);
    var t', chain := Cleared(u, num), t.chains[h0];
    ChainAt(t, h);
    ChainsApart(t, h, h0);
    assert chain[k] == num && (k > 0 ==> chain[k - 1] in chain) && num in chain;
    hide Hash, Linked, Ok, IsAt, ChainsOk, SlotsOk;
    if h == h0 {
      ShorterChain(h, t.chains[h], t.idx[h], t.tags[h], t.strings, t.next, k);
    } else {
      ChainKeeps(h, t.chains[h], t.idx[h], t.tags[h], t.strings, t.next, u.strings, u.next);
    }
    hide ChainOk;
    assert num !in u.chains[h];
    ChainKeepsCleared(h, u, num);
  }

  lemma {:induction false} ChainKeepsCleared(h: nat, u: Table, num: nat)
    requires num < |u.strings| == |u.next| == |u.refs| && h < |u.chains| == |u.idx| == |u.tags| && num !in u.chains[h]
    requires ChainOk(h, u.chains[h], u.idx[h], u.tags[h], u.strings, u.next)
    ensures var t' := Cleared(u, num); ChainOk(h, t'.chains[h], t'.idx[h], t'.tags[h], t'.strings, t'.next)
  {
    var t' := Cleared(u, num);
    ChainKeeps(h, u.chains[h], u.idx[h], u.tags[h], u.strings, u.next, t'.strings, t'.next);
  }

  lemma {:induction false} ChainsApart(t: Table, h: nat, h0: nat)
    requires Ok(t) && h < CHAINS && h0 < CHAINS
    ensures h != h0 ==> forall i :: i in t.chains[h0] ==> i !in t.chains[h]
  {
    ChainAt(t, h);
    ChainAt(t, h0);
    hide Hash, Linked;
  }

  /** A chain loses its k-th place. */
  lemma {:induction false} ShorterChain(h: nat, chain: seq<nat>, first: int, tag: bool, strings: seq<nat>, next: seq<int>, k: nat)
    requires ChainOk(h, chain, first, tag, strings, next) && k < |chain| && |next| == |strings|
    ensures chain[k] < |next| && (k > 0 ==> chain[k - 1] < |next|)
    ensures
      var after := next[chain[k]];
      ChainOk(h, Dropped(chain, k), if k == 0 then after else first, if k == 0 && after == -1 then false else tag,
              strings, if k == 0 then next else next[chain[k - 1] := after])
    ensures chain[k] !in Dropped(chain, k)
  {
    var rest := Dropped(chain, k);
    RestOfChain(chain, k);
    if k == 0 {
      assert rest == chain[1..] && Linked(next[chain[0]], rest, next);
      hide Hash, Dropped;
      if rest == [] { assert next[chain[0]] == -1; } else { assert next[chain[0]] == rest[0]; }
    } else {
      hide Hash, Dropped;
      LinksSkip(first, chain, next, k);
    }
  }

  lemma {:induction false} RestOfChain(chain: seq<nat>, k: nat)
    requires Distinct(chain) && k < |chain|
    ensures
      var rest := Dropped(chain, k);
      && Distinct(rest) && chain[k] !in rest && (rest == [] <==> |chain| == 1) && (k == 0 ==> rest == chain[1..])
      && forall i :: 0 <= i < |rest| ==> rest[i] == if i < k then chain[i] else chain[i + 1]
  {}

  lemma {:induction false} ErasedSlots(t: Table, num: nat, k: nat)
    requires Ok(t) && IsAt(t, num, k)
    ensures var t' := Cleared(Unlinked(t, num, k), num); SlotsOk(t'.strings, t'.refs, t'.chains)
  {
    OkParts(t);
    ErasedShape(t, num, k);
    var t' := Cleared(Unlinked(t, num, k), num);
    hide Ok, ChainsOk, Linked, Hash, SlotsOk, Unlinked, Cleared, IsAt, FreedOk;
    forall i | 0 <= i < |t.strings| && i != num && t.strings[i] != 0 ensures i in t'.chains[Hash(t.strings[i])] {
      SlotIsChained(t.strings, t.refs, t.chains, i);
      StillChained(t.chains, Hash(t.strings[num]), k, i, Hash(t.strings[i]));
    }
    FewerSlots(t.strings, t.refs, t.chains, t'.strings, t'.refs, t'.chains, num);
  }

  lemma {:induction false} SlotIsChained(strings: seq<nat>, refs: seq<int>, chains: seq<seq<nat>>, i: nat)
    requires |refs| == |strings| && |chains| == CHAINS && SlotsOk(strings, refs, chains) && i < |strings| && strings[i] != 0
    ensures i in chains[Hash(strings[i])] && refs[i] >= 1
  {
    hide Hash;
  }

  lemma {:induction false} FewerSlots(strings: seq<nat>, refs: seq<int>, chains: seq<seq<nat>>,
                                      strings': seq<nat>, refs': seq<int>, chains': seq<seq<nat>>, num: nat)
    requires |refs| == |strings| && |refs'| == |strings'| <= |strings| && |chains| == |chains'| == CHAINS && SlotsOk(strings, refs, chains)
    requires forall i :: 0 <= i < |strings'| && strings'[i] != 0 ==> i != num && strings'[i] == strings[i] && refs'[i] == refs[i]
    requires forall i :: 0 <= i < |strings| && i != num && strings[i] != 0 ==> i in chains'[Hash(strings[i])]
    ensures SlotsOk(strings', refs', chains')
  {
    hide Hash;
  }

  lemma {:induction false} StillChained(chains: seq<seq<nat>>, h0: nat, k: nat, i: nat, h: nat)
    requires h0 < |chains| && h < |chains| && k < |chains[h0]| && i in chains[h] && i != chains[h0][k]
    ensures i in chains[h0 := Dropped(chains[h0], k)][h]
  {
    if h == h0 { StillIn(chains[h0], k, i); }
  }

  lemma {:induction false} StillIn(chain: seq<nat>, k: nat, i: nat)
    requires k < |chain| && i in chain && i != chain[k]
    ensures i in Dropped(chain, k)
  {
    var j :| 0 <= j < |chain| && chain[j] == i;
    assert Dropped(chain, k)[if j < k then j else j - 1] == i;
  }

  // ---------- The code ----------

  lemma {:induction false} LinkAt(first: int, chain: seq<nat>, next: seq<int>, i: int)
    requires Linked(first, chain, next) && i == first
    ensures if chain == [] then i == -1 else i == chain[0] && chain[0] < |next| && Linked(next[chain[0]], chain[1..], next)
  {}

  /** A string that its chain does not hold is not in the table. */
  lemma {:induction false} NotOnChain(t: Table, str: nat)
    requires Ok(t) && str != 0 && forall j :: 0 <= j < |t.chains[Hash(str)]| ==>
      t.chains[Hash(str)][j] < |t.strings| && t.strings[t.chains[Hash(str)][j]] != str
    ensures str !in Contents(t)
  {
    ContentsDescribe(t);
    if str in Contents(t) { SlotIsChained(t.strings, t.refs, t.chains, Contents(t)[str].place); }
  }

  /** A string that is in the table keeps its place and has one more reference; a new one has one, and the
      first free place.  Nothing else changes. */
  predicate Stores(t: Table, t': Table, str: nat, i: nat)
    requires Ok(t) && Ok(t')
  {
    var m := Contents(t);
    if str in m then i == m[str].place && Contents(t') == m[str := Entry(i, m[str].refs + 1)]
    else i == Place(t) && Contents(t') == m[str := Entry(i, 1)]
  }

  /** The string at the place has one reference less, and is gone when that was the last one. */
  predicate Frees(t: Table, t': Table, num: nat)
    requires Ok(t) && Ok(t')
  {
    && num < |t.strings| && t.strings[num] in Contents(t) && Contents(t)[t.strings[num]].place == num
    && var str, n := t.strings[num], Contents(t)[t.strings[num]].refs;
    Contents(t') == if n > 1 then Contents(t)[str := Entry(num, n - 1)] else Contents(t) - {str}
  }

  lemma {:induction false} StoresKnown(t: Table, str: nat, i: nat)
    requires Ok(t) && i < |t.strings| && t.strings[i] == str != 0
    ensures i < |t.refs| && Ok(Recounted(t, i, t.refs[i] + 1)) && Stores(t, Recounted(t, i, t.refs[i] + 1), str, i)
  {
    hide Ok, Contents, Hash, ChainsOk, SlotsOk, FreedOk;
    OkParts(t);
    SlotAt(t, i);
    RecountedIsOk(t, i, t.refs[i] + 1);
  }

  lemma {:induction false} StoresNew(t: Table, str: nat)
    requires Ok(t) && str != 0 && str !in Contents(t)
    ensures Ok(Inserted(t, str)) && Place(t) >= 0 && Stores(t, Inserted(t, str), str, Place(t))
  {
    hide Ok, Contents, Hash, Inserted;
    InsertedIsOk(t, str);
  }

  lemma {:induction false} FreesOne(t: Table, num: nat)
    requires Ok(t) && num < |t.strings| && t.strings[num] != 0 && num < |t.refs| && t.refs[num] > 1
    ensures Ok(Recounted(t, num, t.refs[num] - 1)) && Frees(t, Recounted(t, num, t.refs[num] - 1), num)
  {
    hide Ok, Contents, Hash;
    SlotAt(t, num);
    RecountedIsOk(t, num, t.refs[num] - 1);
  }

  lemma {:induction false} FreesLast(t: Table, num: nat, k: nat)
    requires Ok(t) && IsAt(t, num, k) && num < |t.refs| && t.refs[num] <= 1
    ensures
      var t' := Cleared(Unlinked(t, num, k), num);
      Ok(t') && Frees(t, t', num)
  {
    hide Ok, Contents, Hash, Unlinked, Cleared;
    SlotAt(t, num);
    ErasedIsOk(t, num, k);
  }

  class ProgramStrings {
    var strings: seq<nat>
    var next: seq<int>
    var refs: seq<int>
    var idx: seq<int>
    var tags: seq<bool>
    var freedString: int
    ghost var chains: seq<seq<nat>>

    ghost function State(): Table
      reads this
    {
      Table(strings, next, refs, idx, tags, freedString, chains)
    }

    ghost predicate Valid()
      reads this
    {
      Ok(State())
    }

    constructor ()
      ensures Valid() && Contents(State()) == map[]
    {
      strings, next, refs, freedString := [], [], [], -1;
      idx, tags := seq(CHAINS, _ => 0), seq(CHAINS, _ => false);
      chains := seq(CHAINS, _ => []);
    }

    /** The search of a hash chain for a string; -1 when it is not there. */
    method Search(h: nat, str: nat) returns (i: int)
      requires Valid() && str != 0 && h == Hash(str) && h < |tags|
      ensures if str in Contents(State()) then i == Contents(State())[str].place && 0 <= i < |strings| && strings[i] == str else i == -1
    {
      hide Hash, Ok, ChainsOk, SlotsOk, FreedOk, Contents, Linked, Distinct;
      ghost var t := State();
      OkParts(t);
      ChainAt(t, h);
      ghost var chain := chains[h];
      i := -1;
      if tags[h] {
        i := idx[h];
        ghost var k := 0;
        LinkAt(idx[h], chain, next, i);
        assert chain[0..] == chain;
        while i >= 0
          invariant 0 <= k <= |chain| && Linked(i, chain[k..], next) && (k == |chain| ==> i == -1) && (k < |chain| ==> i == chain[k])
          invariant forall j :: 0 <= j < k ==> strings[chain[j]] != str
          decreases |chain| - k
        {
          if strings[i] == str {
            SlotAt(t, i);
            return;
          }
          LinkAt(i, chain[k..], next, i);
          assert chain[k..][1..] == chain[k + 1..];
          i := next[i];
          k := k + 1;
          LinkAt(i, chain[k..], next, i);
        }
        assert k == |chain|;
      }
      NotOnChain(t, str);
    }

    /** store_prog_string, given the address of the shared string. */
    method StoreProgString(str: nat) returns (i: nat)
      requires Valid() && str != 0
      modifies this
      ensures Valid()
      ensures Stores(old(State()), State(), str, i)
    {
      hide Hash, Ok, ChainsOk, SlotsOk, FreedOk, Contents, Inserted, Stores;
      ghost var t := State();
      OkParts(t);
      var h := Hash(str);
      var found := Search(h, str);
      if found >= 0 {
        StoresKnown(t, str, found);
        refs := refs[found := refs[found] + 1];
        assert State() == Recounted(t, found, t.refs[found] + 1);
        return found;
      }
      StoresNew(t, str);
      i := AddString(h, str);
    }

    /** A new string. */
    method AddString(h: nat, str: nat) returns (i: nat)
      requires Valid() && h == Hash(str)
      modifies this
      ensures State() == Inserted(old(State()), str) && i == Place(old(State()))
    {
      hide Hash, Ok, ChainsOk, SlotsOk, FreedOk, NextFree;
      hide Put;
      ghost var t := State();
      OkParts(t);
      var link := if tags[h] then idx[h] else -1;
      i := TakePlace();
      strings, next, refs := Put(strings, i, str), Put(next, i, link), Put(refs, i, 1);
      tags, idx, chains := tags[h := true], idx[h := i], chains[h := [i] + chains[h]];
      assert State() == Inserted(t, str);
    }

    /** The first free place, which is looked for behind the one that is taken, or a new one at the end. */
    method TakePlace() returns (i: nat)
      requires -1 <= freedString < |strings|
      modifies `freedString
      ensures i == if old(freedString) == -1 then |strings| else old(freedString)
      ensures freedString == if old(freedString) >= 0 then NextFree(strings, i + 1) else -1
    {
      if freedString < 0 { return |strings|; }
      i := freedString;
      var top := |strings|;
      freedString := freedString + 1;
      while freedString < top && strings[freedString] != 0
        invariant i < freedString <= top && NextFree(strings, freedString) == NextFree(strings, i + 1)
        decreases top - freedString
      {
        freedString := freedString + 1;
      }
      if freedString >= top { freedString := -1; }
    }

    /** free_prog_string: one reference less; false when there is no such place. */
    method FreeProgString(num: int) returns (done: bool)
      requires Valid() && (0 <= num < |strings| ==> strings[num] != 0)
      modifies this
      ensures Valid() && done == (0 <= num < |old(strings)|)
      ensures !done ==> State() == old(State())
      ensures done ==> Frees(old(State()), State(), num)
    {
      hide Hash, Ok, ChainsOk, SlotsOk, FreedOk, Contents, Unlinked, Cleared, IsAt, Frees;
      var top := |strings| - 1;
      if num < 0 || num > top { return false; }
      ghost var t := State();
      OkParts(t);
      if refs[num] - 1 >= 1 {
        FreesOne(t, num);
        refs := refs[num := refs[num] - 1];
        assert State() == Recounted(t, num, t.refs[num] - 1);
        return true;
      }
      ghost var k := PlaceInChain(t, num);
      FreesLast(t, num, k);
      Erase(num, k);
      return true;
    }

    /** Takes a string that nobody refers to out of the table. */
    method Erase(num: nat, ghost k: nat)
      requires Valid() && IsAt(State(), num, k)
      modifies this
      ensures State() == Cleared(Unlinked(old(State()), num, k), num)
    {
      hide Hash, Ok, ChainsOk, SlotsOk, FreedOk, Unlinked, Cleared, IsAt;
      ghost var t := State();
      OkParts(t);
      ErasedShape(t, num, k);
      var h := Hash(strings[num]);
      var prv := Predecessor(h, num, k);
      UnlinkPlace(h, num, prv, k);
      UnlinkedShape(t, num, k);
      ClearPlace(num);
    }

    /** The place before num on its chain, or -1. */
    method Predecessor(h: nat, num: nat, ghost k: nat) returns (prv: int)
      requires Valid() && IsAt(State(), num, k) && h == Hash(strings[num]) && h < |idx| && h < |chains|
      ensures k < |chains[h]| && (if k == 0 then prv == -1 else prv == chains[h][k - 1] && 0 <= prv < |next|)
    {
      hide Hash, Ok, Linked;
      ghost var t, chain := State(), chains[h];
      ChainAt(t, h);
      ChainPlaces(idx[h], chain, next);
      var i := idx[h];
      prv := -1;
      ghost var m := 0;
      LinkAt(idx[h], chain, next, i);
      assert chain[0..] == chain;
      while i != num
        invariant 0 <= m <= k && Linked(i, chain[m..], next) && i == chain[m]
        invariant if m == 0 then prv == -1 else prv == chain[m - 1] && 0 <= prv < |next|
        decreases k - m
      {
        if i == -1 { assert false; }   // the string is in the table
        LinkAt(i, chain[m..], next, i);
        assert chain[m..][1..] == chain[m + 1..];
        prv := i;
        i := next[i];
        m := m + 1;
        LinkAt(i, chain[m..], next, i);
      }
    }

    /** Takes a place out of the links of its chain. */
    method UnlinkPlace(h: nat, num: nat, prv: int, ghost k: nat)
      requires Valid() && IsAt(State(), num, k) && h == Hash(strings[num])
      requires |next| == |refs| == |strings| && |idx| == |tags| == |chains| == CHAINS
      requires if k == 0 then prv == -1 else prv == chains[h][k - 1] && 0 <= prv < |next|
      modifies this
      ensures State() == Unlinked(old(State()), num, k)
    {
      hide Hash, Ok;
      ghost var t := State();
      if prv == -1 {
        idx := idx[h := next[num]];
        if idx[h] == -1 { tags := tags[h := false]; }
      } else {
        next := next[prv := next[num]];
      }
      chains := chains[h := Dropped(chains[h], k)];
      assert State() == Unlinked(t, num, k);
    }

    /** The end of free_prog_string. */
    method ClearPlace(num: nat)
      requires num < |strings| == |next| == |refs|
      modifies this
      ensures State() == Cleared(old(State()), num)
    {
      var top := |strings| - 1;
      if num != top {
        strings, refs := strings[num := 0], refs[num := 0];
        if num < freedString || freedString == -1 { freedString := num; }
      } else {
        strings, refs, next := strings[..top], refs[..top], next[..top];
      }
    }
  }
}
