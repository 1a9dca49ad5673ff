/** Switch tables and the search of f_switch (src/eoperators.c:882-1107) on integer keys.

    A table entry is a four byte key followed by a two byte address.  A range of keys takes two
    entries: its lower end with address 1, then its upper end with the address of its code. */
module SwitchSearch {
  import opened Basics
  import opened Bytecode

  /** A case: the keys from lo to hi lead to addr.  A single key has lo == hi and is no range. */
  datatype Case = Case(lo: Int32, hi: Int32, isRange: bool, addr: nat)

  datatype Entry = Entry(key: Int32, addr: nat)

  predicate Proper(c: Case) {
    1 < c.addr < 0x1_0000 && c.lo <= c.hi && (!c.isRange ==> c.lo == c.hi)
  }

  predicate Covers(c: Case, s: int) { c.lo <= s <= c.hi }

  /** The order in which cases are compared: the first that covers the key decides. */
  function Scan(cs: seq<Case>, default_: nat, s: int): nat {
    if cs == [] then default_
    else if Covers(cs[0], s) then cs[0].addr
    else Scan(cs[1..], default_, s)
  }

  /** Cases in the order of their keys.  Ranges overlap nothing; single keys may be repeated. */
  predicate Sorted(cs: seq<Case>) {
    && (forall i :: 0 <= i < |cs| ==> Proper(cs[i]))
    && forall i, j :: 0 <= i < j < |cs| ==>
         if cs[i].isRange || cs[j].isRange then cs[i].hi < cs[j].lo else cs[i].hi <= cs[j].lo
  }

  /** t is the address of some case that covers s, or the default when none does. */
  ghost predicate Lands(cs: seq<Case>, default_: nat, s: int, t: nat) {
    || (exists c :: 0 <= c < |cs| && Covers(cs[c], s) && t == cs[c].addr)
    || (t == default_ && forall c :: 0 <= c < |cs| ==> !Covers(cs[c], s))
  }

  predicate Disjoint(cs: seq<Case>) {
    forall i, j :: 0 <= i < j < |cs| ==> cs[i].hi < cs[j].lo || cs[j].hi < cs[i].lo
  }

  lemma {:induction false} ScanFinds(cs: seq<Case>, default_: nat, s: int, c: nat)
    requires c < |cs| && Covers(cs[c], s) && forall i :: 0 <= i < c ==> !Covers(cs[i], s)
    ensures Scan(cs, default_, s) == cs[c].addr
    decreases c
  {
    if c > 0 { ScanFinds(cs[1..], default_, s, c - 1); }
  }

  lemma {:induction false} ScanMisses(cs: seq<Case>, default_: nat, s: int)
    requires forall i :: 0 <= i < |cs| ==> !Covers(cs[i], s)
    ensures Scan(cs, default_, s) == default_
    decreases |cs|
  {
    if cs != [] { ScanMisses(cs[1..], default_, s); }
  }

  /** When no key is repeated, landing on a case that covers the key is what scanning does. */
  lemma {:induction false} LandsIsScan(cs: seq<Case>, default_: nat, s: int, t: nat)
    requires Disjoint(cs)
    ensures Lands(cs, default_, s, t) <==> t == Scan(cs, default_, s)
  {
    if c: nat :| c < |cs| && Covers(cs[c], s) {
      ScanFinds(cs, default_, s, c);
    } else {
      ScanMisses(cs, default_, s);
    }
  }

  // ---------- Entries ----------

  function EntriesOf(c: Case): (es: seq<Entry>)
    ensures es != []
  {
    if c.isRange then [Entry(c.lo, 1), Entry(c.hi, c.addr)] else [Entry(c.lo, c.addr)]
  }

  function Entries(cs: seq<Case>): (es: seq<Entry>)
    ensures cs != [] ==> es != []
  {
    if cs == [] then [] else EntriesOf(cs[0]) + Entries(cs[1..])
  }

  /** Where the entries of case c begin. */
  function Place(cs: seq<Case>, c: nat): nat
    requires c <= |cs|
    decreases c
  {
    if c == 0 then 0 else |EntriesOf(cs[0])| + Place(cs[1..], c - 1)
  }

  /** Entry j is the lower end of the range cs[c]. */
  predicate Lower(cs: seq<Case>, es: seq<Entry>, c: nat, j: nat) {
    c < |cs| && j + 1 < |es| && cs[c].isRange && es[j] == Entry(cs[c].lo, 1) && es[j + 1] == Entry(cs[c].hi, cs[c].addr)
  }

  /** Entry j belongs to case c: as its only entry, its lower end or its upper end. */
  predicate Owns(cs: seq<Case>, es: seq<Entry>, c: nat, j: nat) {
    c < |cs| && j < |es|
    && if cs[c].isRange then Lower(cs, es, c, j) || (j > 0 && Lower(cs, es, c, j - 1))
       else es[j] == Entry(cs[c].lo, cs[c].addr) && (j > 0 ==> es[j - 1].addr > 1)
  }

  lemma {:induction false} PlaceOwns(cs: seq<Case>, c: nat)
    requires c < |cs| && forall i :: 0 <= i < |cs| ==> Proper(cs[i])
    ensures Place(cs, c) < |Entries(cs)| && Owns(cs, Entries(cs), c, Place(cs, c))
    ensures cs[c].isRange ==> Lower(cs, Entries(cs), c, Place(cs, c))
    ensures Place(cs, c) > 0 ==> Entries(cs)[Place(cs, c) - 1].addr > 1
    decreases c
  {
    if c > 0 {
      PlaceOwns(cs[1..], c - 1);
    }
  }

  lemma {:induction false} OwnerOf(cs: seq<Case>, j: nat) returns (c: nat)
    requires j < |Entries(cs)| && forall i :: 0 <= i < |cs| ==> Proper(cs[i])
    ensures Owns(cs, Entries(cs), c, j)
    ensures j == Place(cs, c) || (cs[c].isRange && j == Place(cs, c) + 1)
    decreases |cs|
  {
    var k := |EntriesOf(cs[0])|;
    if j < k {
      c := 0;
    } else {
      var c' := OwnerOf(cs[1..], j - k);
      c := c' + 1;
      PlaceOwns(cs, c);
    }
  }

  predicate Ascending(es: seq<Entry>) {
    forall i, j :: 0 <= i < j < |es| ==> es[i].key <= es[j].key
  }

  lemma {:induction false} KeysAscend(cs: seq<Case>)
    requires Sorted(cs)
    ensures Ascending(Entries(cs))
    decreases |cs|
  {
    if cs != [] {
      var rest := cs[1..];
      KeysAscend(rest);
      forall j | 0 <= j < |Entries(rest)| ensures cs[0].hi <= Entries(rest)[j].key {
        var c := OwnerOf(rest, j);
        assert rest[c] == cs[c + 1];
      }
    }
  }

  // ---------- The table in the code ----------

  function EntryAt(code: seq<Byte>, at: nat): Entry
    requires at + 6 <= |code|
  {
    Entry(Int(code, at), Short(code, at + 4))
  }

  predicate TableAt(code: seq<Byte>, tab: nat, es: seq<Entry>) {
    tab + 6 * |es| <= |code|
    && forall j {:trigger es[j]} :: 0 <= j < |es| ==> EntryAt(code, tab + 6 * j) == es[j]
  }

  /** The size nibble of a table of n entries. */
  predicate SizeOf(i: nat, n: nat) {
    if n == 0 then i == 0 else Pow2(i) <= n < 2 * Pow2(i)
  }

  /** The table type at pc and the three addresses behind it; the short before the table is the
      offset of the branch that ends the body. */
  predicate Header(code: seq<Byte>, pc: nat, tab: nat, end: nat, default_: nat) {
    && pc + 9 <= tab <= end <= |code| && Short(code, pc + 1) == tab && Short(code, pc + 3) == end
    && Short(code, pc + 5) == default_ && Short(code, tab - 2) == end - tab + 2
  }

  /** The searched format. */
  predicate HasTable(code: seq<Byte>, pc: nat, tab: nat, cs: seq<Case>, default_: nat) {
    var es := Entries(cs);
    && Header(code, pc, tab, tab + 6 * |es|, default_) && TableAt(code, tab, es)
    && 0xf0 <= code[pc] < 0xfe && SizeOf(code[pc] - 0xf0, |es|)
  }

  // ---------- What the last probe means ----------

  /** Every entry before m is below s and every entry after m above it. */
  predicate Probed(es: seq<Entry>, m: nat, s: int) {
    && m < |es| && (forall j :: 0 <= j < m ==> es[j].key < s)
    && forall j :: m < j < |es| ==> es[j].key > s
  }

  lemma {:induction false} FoundKey(cs: seq<Case>, m: nat, d: nat)
    requires Sorted(cs) && m < |Entries(cs)|
    ensures
      var es := Entries(cs);
      && es[m].addr != 0 && (m > 0 ==> es[m - 1].addr != 0)
      && (es[m].addr <= 1 ==> m + 1 < |es| && es[m + 1].addr > 1)
      && Lands(cs, d, es[m].key, if es[m].addr <= 1 then es[m + 1].addr else es[m].addr)
  {
    var c := OwnerOf(cs, m);
    assert Covers(cs[c], Entries(cs)[m].key);
    if m > 0 { var b := OwnerOf(cs, m - 1); }
  }

  /** s lies between entry m - 1, the lower end of a range, and entry m. */
  lemma {:induction false} InsideBelow(cs: seq<Case>, m: nat, s: int, d: nat)
    requires Sorted(cs) && Probed(Entries(cs), m, s) && s < Entries(cs)[m].key
    requires m > 0 && Entries(cs)[m - 1].addr <= 1
    ensures Entries(cs)[m].addr > 1 && Lands(cs, d, s, Entries(cs)[m].addr)
  {
    var c := OwnerOf(cs, m - 1);
    assert Covers(cs[c], s);
  }

  lemma {:induction false} InsideAbove(cs: seq<Case>, m: nat, s: int, d: nat)
    requires Sorted(cs) && Probed(Entries(cs), m, s) && s > Entries(cs)[m].key && Entries(cs)[m].addr <= 1
    ensures m + 1 < |Entries(cs)| && s <= Entries(cs)[m + 1].key && Entries(cs)[m + 1].addr > 1
    ensures Lands(cs, d, s, Entries(cs)[m + 1].addr)
  {
    var c := OwnerOf(cs, m);
    assert Covers(cs[c], s);
  }

  lemma {:induction false} NotFound(cs: seq<Case>, m: nat, s: int, d: nat)
    requires Sorted(cs) && Probed(Entries(cs), m, s) && s != Entries(cs)[m].key
    requires s < Entries(cs)[m].key && m > 0 ==> Entries(cs)[m - 1].addr > 1
    requires s > Entries(cs)[m].key ==> Entries(cs)[m].addr > 1
    ensures Lands(cs, d, s, d)
  {
    forall c | 0 <= c < |cs| ensures !Covers(cs[c], s) {
      PlaceOwns(cs, c);
    }
  }

  lemma {:induction false} BeyondAll(cs: seq<Case>, s: int, d: nat)
    requires Sorted(cs) && forall j :: 0 <= j < |Entries(cs)| ==> Entries(cs)[j].key < s
    ensures Lands(cs, d, s, d)
  {
    forall c | 0 <= c < |cs| ensures !Covers(cs[c], s) {
      PlaceOwns(cs, c);
    }
  }

  // ---------- f_switch ----------

  /** off_tab: the first probe of a table whose size nibble is i. */
  const OFF_TAB: seq<nat> :=
    [0 * 6, 1 * 6, 3 * 6, 7 * 6, 15 * 6, 31 * 6, 63 * 6, 127 * 6, 255 * 6, 511 * 6, 1023 * 6, 2047 * 6, 4095 * 6, 8191 * 6]

  lemma {:induction false} OffTab(i: nat)
    requires i < 14
    ensures OFF_TAB[i] == 6 * (Pow2(i) - 1)
  {
    if i > 0 {
      OffTab(i - 1);
      assert OFF_TAB[i] == 2 * OFF_TAB[i - 1] + 6;
    }
  }

  /** The step that leads from the root of a perfect tree of depth k to its children. */
  predicate StepIs(d: nat, k: nat) {
    if k == 0 then d < 6 else d == 6 * Pow2(k - 1)
  }

  lemma {:induction false} StepIsFirst(i: nat)
    ensures StepIs(if 3 * Pow2(i) < 6 then 0 else 3 * Pow2(i), i)
  {}

  lemma {:induction false} StepHalves(d: nat, k: nat)
    requires StepIs(d, k)
    ensures d >= 6 <==> k > 0
    ensures k > 0 ==> StepIs(d / 2, k - 1) && Pow2(k) == 2 * Pow2(k - 1) && d == 6 * Pow2(k - 1)
  {}

  /** The search stands at entry m, the root of a perfect tree of depth k whose positions beyond the
      table count as infinite keys: what lies before the tree is below s, what lies behind it above. */
  predicate Searching(es: seq<Entry>, m: nat, k: nat, s: int) {
    && Pow2(k) <= m + 1 <= |es| + Pow2(k)
    && (forall j :: 0 <= j < |es| && j + Pow2(k) <= m ==> es[j].key < s)
    && forall j :: m + Pow2(k) <= j < |es| ==> es[j].key > s
  }

  lemma {:induction false} GoLeft(es: seq<Entry>, m: nat, k: nat, s: int)
    requires Ascending(es) && k > 0 && Searching(es, m, k, s) && (m < |es| ==> s < es[m].key)
    ensures Pow2(k - 1) <= m && Searching(es, m - Pow2(k - 1), k - 1, s)
  {}

  lemma {:induction false} GoRight(es: seq<Entry>, m: nat, k: nat, s: int)
    requires Ascending(es) && k > 0 && m < |es| && Searching(es, m, k, s) && es[m].key < s
    ensures Searching(es, m + Pow2(k - 1), k - 1, s)
  {}

  lemma {:induction false} LastProbe(es: seq<Entry>, m: nat, s: int)
    requires Searching(es, m, 0, s) && m < |es|
    ensures Probed(es, m, s)
  {}

  lemma {:induction false} FirstProbe(es: seq<Entry>, i: nat, s: int)
    requires es != [] && SizeOf(i, |es|)
    ensures Pow2(i) - 1 < |es| && Searching(es, Pow2(i) - 1, i, s)
  {}

  /** A probe that falls behind the table and has no step left stands exactly at the table's end. */
  lemma {:induction false} OverrunIsEnd(es: seq<Entry>, m: nat, s: int)
    requires Searching(es, m, 0, s) && m >= |es|
    ensures m == |es| && forall j :: 0 <= j < |es| ==> es[j].key < s
  {}

  lemma {:induction false} TableParts(code: seq<Byte>, pc: nat, tab: nat, cs: seq<Case>, default_: nat)
    requires HasTable(code, pc, tab, cs, default_)
    ensures
      var es := Entries(cs);
      && pc + 9 <= tab <= |code| && Short(code, pc + 1) == tab && Short(code, pc + 3) == tab + 6 * |es|
      && Short(code, pc + 5) == default_ && 0xf0 <= code[pc] < 0xfe && SizeOf(code[pc] - 0xf0, |es|)
  {}

  lemma {:induction false} ProbeReads(code: seq<Byte>, pc: nat, tab: nat, cs: seq<Case>, default_: nat, m: nat)
    requires HasTable(code, pc, tab, cs, default_) && m < |Entries(cs)|
    ensures tab + 6 * m + 6 <= |code| && Int(code, tab + 6 * m) == Entries(cs)[m].key
  {
    assert EntryAt(code, tab + 6 * m) == Entries(cs)[m];
  }

  method FirstStep(table: nat, i: nat) returns (l: nat, d: nat)
    requires i < 14
    ensures l == table + 6 * (Pow2(i) - 1) && StepIs(d, i)
  {
    OffTab(i);
    StepIsFirst(i);
    l := table + OFF_TAB[i];
    d := (OFF_TAB[i] + 6) / 2;
    if d < 6 { d := 0; }
  }

  /** Moves a probe behind the table back into it, or to its end when no step is left. */
  method StepInside(l0: nat, d0: nat, end: nat, ghost es: seq<Entry>, ghost tab: nat, ghost m0: nat, ghost k0: nat,
                    ghost s: int)
    returns (l: nat, d: nat, ghost m: nat, ghost k: nat)
    requires Ascending(es) && end == tab + 6 * |es|
    requires Searching(es, m0, k0, s) && l0 == tab + 6 * m0 && d0 == 6 * Pow2(k0)
    ensures l == tab + 6 * m && l <= end && k <= k0 && Searching(es, m, k, s)
    ensures l < end ==> d == 6 * Pow2(k)
    ensures l == end ==> forall j :: 0 <= j < |es| ==> es[j].key < s
  {
    hide Searching, Ascending;
    l, d, m, k := l0, d0, m0, k0;
    while l >= end
      invariant Searching(es, m, k, s) && l == tab + 6 * m && d == 6 * Pow2(k) && k <= k0
      decreases k
    {
      StepHalves(d, k + 1);
      d := d / 2;
      StepHalves(d, k);
      if d < 6 {
        d := 0;
        OverrunIsEnd(es, m, s);
        break;
      }
      GoLeft(es, m, k, s);
      l := l - d;
      m, k := m - Pow2(k - 1), k - 1;
    }
  }

  /** The last probe found a greater key: s may lie in the range that ends here. */
  method BelowLast(code: seq<Byte>, pc: nat, l: nat, s: Int32,
                   ghost tab: nat, ghost cs: seq<Case>, ghost default_: nat, ghost m: nat)
    returns (target: nat)
    requires Sorted(cs) && HasTable(code, pc, tab, cs, default_)
    requires Probed(Entries(cs), m, s) && l == tab + 6 * m && s < Entries(cs)[m].key
    ensures Lands(cs, default_, s, target)
  {
    ghost var es := Entries(cs);
    assert EntryAt(code, l) == es[m];
    assert m > 0 ==> EntryAt(code, l - 6) == es[m - 1];
    var offset := Short(code, l - 2);
    if offset <= 1 {
      InsideBelow(cs, m, s, default_);
      var r := Int(code, l - 6);
      if s >= r {
        offset := Short(code, l + 4);
        if offset == 0 { assert false; }
        return offset;
      }
    } else {
      NotFound(cs, m, s, default_);
    }
    return Short(code, pc + 5);
  }

  /** The last probe found a smaller key: s may lie in the range that begins here. */
  method AboveLast(code: seq<Byte>, pc: nat, l: nat, s: Int32,
                   ghost tab: nat, ghost cs: seq<Case>, ghost default_: nat, ghost m: nat)
    returns (target: nat)
    requires Sorted(cs) && HasTable(code, pc, tab, cs, default_)
    requires Probed(Entries(cs), m, s) && l == tab + 6 * m && s > Entries(cs)[m].key
    ensures Lands(cs, default_, s, target)
  {
    ghost var es := Entries(cs);
    assert EntryAt(code, l) == es[m];
    var offset := Short(code, l + 4);
    if offset <= 1 {
      InsideAbove(cs, m, s, default_);
      assert EntryAt(code, l + 6) == es[m + 1] by { assert l + 6 == tab + 6 * (m + 1); }
      var r := Int(code, l + 6);
      if s <= r {
        offset := Short(code, l + 10);
        if offset == 0 { assert false; }
        return offset;
      }
    } else {
      NotFound(cs, m, s, default_);
    }
    return Short(code, pc + 5);
  }

  /** The key was found; it may be one end of a range. */
  method OnKey(code: seq<Byte>, l: nat, ghost pc: nat, ghost tab: nat, ghost cs: seq<Case>, ghost default_: nat, ghost m: nat)
    returns (offset: nat)
    requires Sorted(cs) && HasTable(code, pc, tab, cs, default_) && m < |Entries(cs)| && l == tab + 6 * m
    ensures Lands(cs, default_, Entries(cs)[m].key, offset)
  {
    ghost var es := Entries(cs);
    FoundKey(cs, m, default_);
    assert EntryAt(code, l) == es[m];
    assert m > 0 ==> EntryAt(code, l - 6) == es[m - 1];
    offset := Short(code, l + 4);
    if Short(code, l - 2) == 0 { assert false; }
    if offset <= 1 {
      assert EntryAt(code, l + 6) == es[m + 1] by { assert l + 6 == tab + 6 * (m + 1); }
      offset := Short(code, l + 10);
      if offset == 0 { assert false; }
    }
  }

  /** The probe at l, with step d, reads entry m, the root of a tree of depth k. */
  predicate At(es: seq<Entry>, tab: nat, l: nat, d: nat, m: nat, k: nat, s: int) {
    Searching(es, m, k, s) && StepIs(d, k) && m < |es| && l == tab + 6 * m
  }

  /** The key read at l decides: it is s, or no step is left. */
  method Decide(code: seq<Byte>, pc: nat, l: nat, d: nat, s: Int32,
                ghost tab: nat, ghost cs: seq<Case>, ghost default_: nat, ghost m: nat, ghost k: nat)
    returns (target: nat)
    requires Sorted(cs) && HasTable(code, pc, tab, cs, default_) && At(Entries(cs), tab, l, d, m, k, s)
    requires d < 6 || Entries(cs)[m].key == s
    ensures Lands(cs, default_, s, target)
  {
    hide HasTable, Searching, Sorted, Entries, Probed, Lands, Short, Int;
    ProbeReads(code, pc, tab, cs, default_, m);
    StepHalves(d, k);
    var r := Int(code, l);
    if s < r {
      LastProbe(Entries(cs), m, s);
      target := BelowLast(code, pc, l, s, tab, cs, default_, m);
    } else if s > r {
      LastProbe(Entries(cs), m, s);
      target := AboveLast(code, pc, l, s, tab, cs, default_, m);
    } else {
      target := OnKey(code, l, pc, tab, cs, default_, m);
    }
  }

  /** The next probe, to the left or to the right; it may be the end of the table. */
  method Move(l0: nat, d0: nat, end: nat, below: bool,
              ghost es: seq<Entry>, ghost tab: nat, ghost m0: nat, ghost k0: nat, ghost s: int)
    returns (l: nat, d: nat, ghost m: nat, ghost k: nat)
    requires Ascending(es) && end == tab + 6 * |es| && At(es, tab, l0, d0, m0, k0, s) && d0 >= 6
    requires if below then s < es[m0].key else es[m0].key < s
    ensures l == end ==> forall j :: 0 <= j < |es| ==> es[j].key < s
    ensures l != end ==> At(es, tab, l, d, m, k, s) && k < k0
  {
    hide Searching, Ascending;
    StepHalves(d0, k0);
    if below {
      GoLeft(es, m0, k0, s);
      l, d := l0 - d0, d0 / 2;
      m, k := m0 - Pow2(k0 - 1), k0 - 1;
    } else {
      GoRight(es, m0, k0, s);
      l, d, m, k := StepInside(l0 + d0, d0, end, es, tab, m0 + Pow2(k0 - 1), k0 - 1, s);
      if l != end {
        StepHalves(d, k + 1);
        d := d / 2;
      }
    }
  }

  /** The search of f_switch in a table with at least one entry. */
  method FindEntry(code: seq<Byte>, pc: nat, s: Int32, ghost tab: nat, ghost cs: seq<Case>, ghost default_: nat)
    returns (target: nat)
    requires Sorted(cs) && cs != [] && HasTable(code, pc, tab, cs, default_)
    ensures Lands(cs, default_, s, target)
  {
    ghost var es := Entries(cs);
    KeysAscend(cs);
    TableParts(code, pc, tab, cs, default_);
    hide HasTable, Searching, Sorted, Entries, Probed, Lands, Ascending, SizeOf, Short, Int;
    var i := code[pc] - 0xf0;
    var end := Short(code, pc + 3);
    FirstProbe(es, i, s);
    var l, d := FirstStep(Short(code, pc + 1), i);
    ghost var m: nat, k: nat := Pow2(i) - 1, i;
    while true
      invariant At(es, tab, l, d, m, k, s)
      decreases k
    {
      ProbeReads(code, pc, tab, cs, default_, m);
      var r := Int(code, l);
      if s == r || d < 6 {
        target := Decide(code, pc, l, d, s, tab, cs, default_, m, k);
        return;
      }
      l, d, m, k := Move(l, d, end, s < r, es, tab, m, k, s);
      if l == end {
        BeyondAll(cs, s, default_);
        return Short(code, pc + 5);
      }
    }
  }

  // ---------- The direct format ----------

  predicate Consecutive(cs: seq<Case>) {
    forall j :: 0 <= j < |cs| ==> !cs[j].isRange && cs[j].lo == cs[0].lo + j
  }

  /** One address for each key, then the least key. */
  predicate HasDirect(code: seq<Byte>, pc: nat, tab: nat, cs: seq<Case>, default_: nat) {
    && cs != [] && Consecutive(cs) && Header(code, pc, tab, tab + 2 * |cs| + 4, default_) && code[pc] == 0xfe
    && (forall j {:trigger cs[j]} :: 0 <= j < |cs| ==> Short(code, tab + 2 * j) == cs[j].addr)
    && Int(code, tab + 2 * |cs|) == cs[0].lo
  }

  method FindDirect(code: seq<Byte>, pc: nat, s: Int32, ghost tab: nat, ghost cs: seq<Case>, ghost default_: nat)
    returns (target: nat)
    requires Sorted(cs) && HasDirect(code, pc, tab, cs, default_)
    ensures Lands(cs, default_, s, target)
  {
    var l, end := Short(code, pc + 1), Short(code, pc + 3);
    var d := Int(code, end - 4);
    if s >= d && l + (s - d) * 2 < end - 4 {
      assert Covers(cs[s - d], s);
      var offset := Short(code, l + (s - d) * 2);
      if offset != 0 {
        return offset;
      } else {
        assert false;
      }
    }
    return Short(code, pc + 5);
  }

  // ---------- The empty table ----------

  /** What a search of an empty table takes for the address of its first entry: bytes of the code
      behind the switch.  Two zeros stand for a table of addresses, at the beginning of the program. */
  function StrayAddress(code: seq<Byte>, end: nat): nat
    requires end + 12 <= |code|
  {
    if Short(code, end + 4) > 1 then Short(code, end + 4)
    else if Short(code, end + 10) > 0 then Short(code, end + 10)
    else Short(code, 0)
  }

  /** Where the search of an empty table leads; None when the address is read from memory in front of
      the program. */
  function EmptyLookup(code: seq<Byte>, end: nat, default_: nat, s: Int32): Option<nat>
    requires end + 12 <= |code|
  {
    var r, upper := Int(code, end), Int(code, end + 6);
    if s == r then Some(StrayAddress(code, end))
    else if r < s <= upper && Short(code, end + 4) <= 1 then
      if Short(code, end + 10) == 0 && s < upper then None else Some(StrayAddress(code, end))
    else Some(default_)
  }

  /** The bytes behind the switch happen to lead to the default. */
  predicate StraysHome(code: seq<Byte>, end: nat, default_: nat)
    requires end + 12 <= |code|
  {
    && StrayAddress(code, end) == default_
    && (Short(code, end + 4) <= 1 && Short(code, end + 10) == 0 ==> Int(code, end + 6) <= Int(code, end) + 1)
  }

  /** A switch that has only a default takes it for every key exactly when the bytes behind it say so. */
  lemma {:induction false} EmptyTakesDefault(code: seq<Byte>, end: nat, default_: nat)
    requires end + 12 <= |code|
    ensures (forall s: Int32 :: EmptyLookup(code, end, default_, s) == Some(default_)) <==> StraysHome(code, end, default_)
  {
    hide Short, Int;
    var r: int, upper: int := Int(code, end), Int(code, end + 6);
    assert EmptyLookup(code, end, default_, r) == Some(StrayAddress(code, end));
    if r + 1 < upper && Short(code, end + 4) <= 1 && Short(code, end + 10) == 0 {
      assert EmptyLookup(code, end, default_, r + 1).None?;
    }
  }

  method FindInEmpty(code: seq<Byte>, pc: nat, s: Int32, ghost tab: nat, ghost default_: nat) returns (target: Option<nat>)
    requires HasTable(code, pc, tab, [], default_) && tab + 12 <= |code|
    ensures target == EmptyLookup(code, tab, default_, s)
  {
    hide Int;
    var l := Short(code, pc + 1);
    var r := Int(code, l);
    var offset: nat;
    if s < r {
      if Short(code, l - 2) <= 1 { assert false; }
      offset := Short(code, pc + 5);
    } else if s > r {
      offset := Short(code, l + 4);
      if offset <= 1 && s <= Int(code, l + 6) {
        r := Int(code, l + 6);
        offset := Short(code, l + 10);
        if offset == 0 {
          var at := offset + (s - r) * 2;
          if at < 0 { return None; }
          offset := Short(code, at);
        }
      } else {
        offset := Short(code, pc + 5);
      }
    } else {
      offset := Short(code, l + 4);
      if offset <= 1 {
        offset := Short(code, l + 10);
        if offset == 0 { offset := Short(code, 0); }
      }
    }
    return Some(offset);
  }

  // ---------- f_switch ----------

  /** The switch at pc jumps where scanning its cases would, whatever the size and the format of its
      table, unless the table is empty. */
  method FSwitch(code: seq<Byte>, pc: nat, s: Int32, ghost tab: nat, ghost cs: seq<Case>, ghost default_: nat)
    returns (target: Option<nat>)
    requires Sorted(cs) && (HasTable(code, pc, tab, cs, default_) || HasDirect(code, pc, tab, cs, default_))
    requires cs == [] ==> tab + 12 <= |code|
    ensures cs != [] ==> target.Some? && Lands(cs, default_, s, target.value)
    ensures cs != [] && Disjoint(cs) ==> target == Some(Scan(cs, default_, s))
    ensures cs == [] ==> target == EmptyLookup(code, tab, default_, s)
  {
    hide Sorted, Lands, Scan, Disjoint, EmptyLookup, StrayAddress, Short, Int, Entries, TableAt;
    if code[pc] == 0xfe {
      var t := FindDirect(code, pc, s, tab, cs, default_);
      target := Some(t);
      if Disjoint(cs) { LandsIsScan(cs, default_, s, t); }
    } else if Short(code, pc + 1) == Short(code, pc + 3) {
      EmptyTable(code, pc, tab, cs, default_);
      target := FindInEmpty(code, pc, s, tab, default_);
    } else {
      EmptyTable(code, pc, tab, cs, default_);
      var t := FindEntry(code, pc, s, tab, cs, default_);
      target := Some(t);
      if Disjoint(cs) { LandsIsScan(cs, default_, s, t); }
    }
  }

  lemma {:induction false} EmptyTable(code: seq<Byte>, pc: nat, tab: nat, cs: seq<Case>, default_: nat)
    requires HasTable(code, pc, tab, cs, default_)
    ensures Short(code, pc + 1) == Short(code, pc + 3) <==> cs == []
  {}
}
