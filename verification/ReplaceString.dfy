/** replace_string (src/efuns_main.c:2396-2634): with a replacement no longer than its pattern the text is
    rewritten in place, else into a new string; a skip table lets the search pass over hopeless positions. */
module ReplaceString {
  import opened Basics
  import opened Bytecode

  // ---------- What it means ----------

  predicate StartsWith(text: seq<Byte>, pattern: seq<Byte>) {
    |pattern| <= |text| && text[..|pattern|] == pattern
  }

  /** Of the leftmost occurrences that do not overlap, those numbered first to last are replaced; `cur`
      occurrences came before this text. */
  function Replaced(text: seq<Byte>, pattern: seq<Byte>, replace: seq<Byte>, first: int, last: int, cur: nat): seq<Byte>
    requires pattern != []
    decreases |text|
  {
    if text == [] then []
    else if StartsWith(text, pattern) then
      (if first <= cur + 1 <= last then replace else pattern)
      + Replaced(text[|pattern|..], pattern, replace, first, last, cur + 1)
    else
      [text[0]] + Replaced(text[1..], pattern, replace, first, last, cur)
  }

  /** Behind the last occurrence to be replaced the text stays as it is. */
  lemma {:induction false} NothingLeft(text: seq<Byte>, pattern: seq<Byte>, replace: seq<Byte>, first: int, last: int, cur: nat)
    requires pattern != [] && (last <= cur || last < first)
    ensures Replaced(text, pattern, replace, first, last, cur) == text
    decreases |text|
  {
    if text != [] {
      if StartsWith(text, pattern) {
        NothingLeft(text[|pattern|..], pattern, replace, first, last, cur + 1);
        assert text == pattern + text[|pattern|..];
      } else {
        NothingLeft(text[1..], pattern, replace, first, last, cur);
      }
    }
  }

  /** A text shorter than the pattern has no occurrence. */
  lemma {:induction false} TooShort(text: seq<Byte>, pattern: seq<Byte>, replace: seq<Byte>, first: int, last: int, cur: nat)
    requires |text| < |pattern|
    ensures Replaced(text, pattern, replace, first, last, cur) == text
    decreases |text|
  {
    if text != [] { TooShort(text[1..], pattern, replace, first, last, cur); }
  }

  // ---------- Skipping ----------

  /** How far the pattern must move so that its last byte before the end that equals c comes under c. */
  function Skip(pattern: seq<Byte>, c: Byte): (k: nat)
    ensures k <= |pattern|
    ensures k < |pattern| ==> pattern[|pattern| - 1 - k] == c
    ensures forall j :: |pattern| - k <= j < |pattern| ==> pattern[j] != c
  {
    if pattern == [] then 0
    else if pattern[|pattern| - 1] == c then 0
    else
      var k := Skip(pattern[..|pattern| - 1], c);
      assert forall j :: 0 <= j < |pattern| - 1 ==> pattern[..|pattern| - 1][j] == pattern[j];
      k + 1
  }

  lemma {:induction false} NotHere(text: seq<Byte>, pattern: seq<Byte>, j: nat)
    requires pattern != [] && |pattern| <= |text| && j < Skip(pattern, text[|pattern| - 1])
    ensures !StartsWith(text[j..], pattern)
  {
    var i := |pattern| - 1 - j;
    assert pattern[i] != text[|pattern| - 1];
    assert |pattern| <= |text[j..]| ==> text[j..][..|pattern|][i] == text[j..][i] == text[|pattern| - 1];
  }

  /** No occurrence begins at a position that is skipped. */
  lemma {:induction false} SkippingIsSafe(text: seq<Byte>, pattern: seq<Byte>, replace: seq<Byte>, first: int, last: int, cur: nat, k: nat)
    requires pattern != [] && |pattern| <= |text| && k <= Skip(pattern, text[|pattern| - 1])
    ensures Replaced(text, pattern, replace, first, last, cur) == text[..k] + Replaced(text[k..], pattern, replace, first, last, cur)
    decreases k
  {
    if k == 0 {
      assert text[0..] == text;
    } else {
      SkippingIsSafe(text, pattern, replace, first, last, cur, k - 1);
      var rest := text[k - 1..];
      NotHere(text, pattern, k - 1);
      assert rest[1..] == text[k..] && text[..k] == text[..k - 1] + [rest[0]];
    }
  }

  method BuildSkipTable(pattern: seq<Byte>) returns (table: array<nat>)
    ensures fresh(table) && table.Length == 256 && forall c: Byte :: table[c] == Skip(pattern, c)
  {
    var plen := |pattern|;
    table := new nat[256](_ => plen);
    var j := 0;
    while j < plen
      invariant 0 <= j <= plen
      invariant forall c: Byte :: table[c] == plen - j + Skip(pattern[..j], c)
    {
      assert pattern[..j + 1][..j] == pattern[..j];
      table[pattern[j]] := plen - j - 1;
      j := j + 1;
    }
    assert pattern[..plen] == pattern;
  }

  // ---------- In place ----------

  lemma {:induction false} MovedDown(b: seq<Byte>, c: seq<Byte>, c': seq<Byte>, dst: nat, src: nat, i: nat)
    requires dst <= src && src + i < |b| == |c| && c' == c[dst + i := c[src + i]]
    requires c[..dst + i] == b[..dst] + b[src..src + i] && c[src + i..] == b[src + i..]
    ensures c'[..dst + i + 1] == b[..dst] + b[src..src + i + 1] && c'[src + i + 1..] == b[src + i + 1..]
  {
    assert c[src + i] == b[src + i] by { assert c[src + i..][0] == b[src + i..][0]; }
    assert c'[..dst + i + 1] == c[..dst + i] + [b[src + i]];
    assert b[src..src + i + 1] == b[src..src + i] + [b[src + i]];
    assert c'[src + i + 1..] == c[src + i..][1..];
  }

  /** Copies n bytes down to a lower or equal position. */
  method CopyDown(buf: array<Byte>, dst: nat, src: nat, n: nat)
    requires dst <= src && src + n <= buf.Length
    modifies buf
    ensures buf[..dst + n] == old(buf[..dst] + buf[src..src + n]) && buf[src + n..] == old(buf[src + n..])
  {
    ghost var b := buf[..];
    var i := 0;
    while i < n
      invariant 0 <= i <= n && buf[..dst + i] == b[..dst] + b[src..src + i] && buf[src + i..] == b[src + i..]
    {
      ghost var c := buf[..];
      buf[dst + i] := buf[src + i];
      MovedDown(b, c, buf[..], dst, src, i);
      i := i + 1;
    }
  }

  method CopyIn(buf: array<Byte>, dst: nat, bytes: seq<Byte>)
    requires dst + |bytes| <= buf.Length
    modifies buf
    ensures buf[..dst + |bytes|] == old(buf[..dst]) + bytes && buf[dst + |bytes|..] == old(buf[dst + |bytes|..])
  {
    forall i | 0 <= i < |bytes| { buf[dst + i] := bytes[i]; }
  }

  /** Copies everything up to slen down and ends the string. */
  method CopyTail(buf: array<Byte>, dst: nat, src: nat, slen: nat) returns (len: nat)
    requires dst <= src <= slen < buf.Length
    modifies buf
    ensures len == dst + (slen - src) && buf[..len] == old(buf[..dst] + buf[src..slen]) && buf[len] == 0
  {
    CopyDown(buf, dst, src, slen - src);
    len := dst + (slen - src);
    buf[len] := 0;
  }

  /** The part of the buffer b before dst is finished, the part from src on is still the text, and what
      is left to do completes the result. */
  ghost predicate Halfway(b: seq<Byte>, text: seq<Byte>, pattern: seq<Byte>, replace: seq<Byte>,
                          first: int, last: int, cur: nat, dst: nat, src: nat)
    requires pattern != []
  {
    && dst <= src <= |text| < |b| && b[src..|text|] == text[src..]
    && b[..dst] + Replaced(text[src..], pattern, replace, first, last, cur) == Replaced(text, pattern, replace, first, last, 0)
  }

  /** n bytes of the text are consumed and w is written. */
  lemma {:induction false} Advanced(b: seq<Byte>, b': seq<Byte>, text: seq<Byte>, pattern: seq<Byte>, replace: seq<Byte>, first: int, last: int,
                 cur: nat, cur': nat, dst: nat, src: nat, n: nat, w: seq<Byte>)
    requires pattern != [] && Halfway(b, text, pattern, replace, first, last, cur, dst, src)
    requires dst + |w| <= src + n <= |text| && |b'| == |b|
    requires b'[..dst + |w|] == b[..dst] + w && b'[src + n..] == b[src + n..]
    requires
      b[..dst] + Replaced(text[src..], pattern, replace, first, last, cur) ==
        (b[..dst] + w) + Replaced(text[src + n..], pattern, replace, first, last, cur')
    ensures Halfway(b', text, pattern, replace, first, last, cur', dst + |w|, src + n)
  {
    hide Replaced;
    assert b'[src + n..|text|] == b'[src + n..][..|text| - src - n];
    assert b[src + n..|text|] == b[src..|text|][n..] == text[src..][n..] == text[src + n..];
  }

  /** n bytes that no occurrence touches are copied. */
  lemma {:induction false} Copied(done: seq<Byte>, text: seq<Byte>, src: nat, n: nat, pattern: seq<Byte>, replace: seq<Byte>, first: int, last: int, cur: nat)
    requires pattern != [] && src + n <= |text|
    requires
      Replaced(text[src..], pattern, replace, first, last, cur) ==
        text[src..][..n] + Replaced(text[src..][n..], pattern, replace, first, last, cur)
    ensures
      done + Replaced(text[src..], pattern, replace, first, last, cur) ==
        (done + text[src..src + n]) + Replaced(text[src + n..], pattern, replace, first, last, cur)
  {
    assert text[src..][n..] == text[src + n..] && text[src..][..n] == text[src..src + n];
  }

  /** An occurrence is passed over or replaced. */
  lemma {:induction false} Matched(done: seq<Byte>, text: seq<Byte>, src: nat, pattern: seq<Byte>, replace: seq<Byte>, first: int, last: int, cur: nat)
    requires pattern != [] && src <= |text| && StartsWith(text[src..], pattern)
    ensures src + |pattern| <= |text| && text[src..src + |pattern|] == pattern
    ensures
      done + Replaced(text[src..], pattern, replace, first, last, cur) ==
        (done + (if first <= cur + 1 <= last then replace else pattern))
        + Replaced(text[src + |pattern|..], pattern, replace, first, last, cur + 1)
  {
    assert text[src..][|pattern|..] == text[src + |pattern|..];
  }

  lemma {:induction false} UnderPattern(b: seq<Byte>, text: seq<Byte>, src: nat, n: nat)
    requires src + n <= |text| <= |b| && b[src..|text|] == text[src..]
    ensures b[src..src + n] == text[src..src + n]
  {
    assert b[src..src + n] == b[src..|text|][..n] && text[src..src + n] == text[src..][..n];
  }

  lemma {:induction false} TailKept(b: seq<Byte>, b': seq<Byte>, i: nat, j: nat)
    requires i <= j <= |b| && |b'| == |b| && b'[i..] == b[i..]
    ensures b'[j..] == b[j..]
  {
    assert b'[j..] == b'[i..][j - i..] && b[j..] == b[i..][j - i..];
  }

  /** Copies n bytes that belong to no occurrence. */
  method PassOver(buf: array<Byte>, ghost text: seq<Byte>, ghost pattern: seq<Byte>, ghost replace: seq<Byte>,
                  ghost first: int, ghost last: int, ghost cur: nat, dst: nat, src: nat, n: nat)
    returns (src': nat, dst': nat)
    requires pattern != [] && Halfway(buf[..], text, pattern, replace, first, last, cur, dst, src) && src + n <= |text|
    requires
      Replaced(text[src..], pattern, replace, first, last, cur) ==
        text[src..][..n] + Replaced(text[src..][n..], pattern, replace, first, last, cur)
    modifies buf
    ensures src' == src + n && dst' == dst + n && Halfway(buf[..], text, pattern, replace, first, last, cur, dst', src')
  {
    hide Replaced;
    ghost var b := buf[..];
    ghost var w := text[src..src + n];
    Copied(b[..dst], text, src, n, pattern, replace, first, last, cur);
    UnderPattern(b, text, src, n);
    CopyDown(buf, dst, src, n);
    src', dst' := src + n, dst + n;
    Advanced(b, buf[..], text, pattern, replace, first, last, cur, cur, dst, src, n, w);
  }

  method PutMatch(buf: array<Byte>, pattern: seq<Byte>, replace: seq<Byte>, replaced: bool, dst: nat, src: nat)
    returns (dst': nat)
    requires |replace| <= |pattern| && dst <= src && src + |pattern| <= buf.Length && buf[src..src + |pattern|] == pattern
    modifies buf
    ensures
      var w := if replaced then replace else pattern;
      dst' == dst + |w| && buf[..dst'] == old(buf[..dst]) + w && buf[src + |pattern|..] == old(buf[src + |pattern|..])
  {
    ghost var b := buf[..];
    if replaced {
      CopyIn(buf, dst, replace);
      dst' := dst + |replace|;
      TailKept(b, buf[..], dst', src + |pattern|);
    } else {
      CopyDown(buf, dst, src, |pattern|);
      dst' := dst + |pattern|;
    }
  }

  /** An occurrence at src, the one numbered `number`, is replaced or kept. */
  method TakeMatch(buf: array<Byte>, pattern: seq<Byte>, replace: seq<Byte>, first: int, last: int, number: nat,
                   dst: nat, src: nat, ghost text: seq<Byte>)
    returns (src': nat, dst': nat)
    requires pattern != [] && |replace| <= |pattern| && number > 0
    requires Halfway(buf[..], text, pattern, replace, first, last, number - 1, dst, src) && StartsWith(text[src..], pattern)
    modifies buf
    ensures src' == src + |pattern| && Halfway(buf[..], text, pattern, replace, first, last, number, dst', src')
  {
    hide Replaced;
    hide StartsWith;
    ghost var b := buf[..];
    ghost var w := if first <= number <= last then replace else pattern;
    Matched(b[..dst], text, src, pattern, replace, first, last, number - 1);
    UnderPattern(b, text, src, |pattern|);
    src' := src + |pattern|;
    dst' := PutMatch(buf, pattern, replace, first <= number <= last, dst, src);
    Advanced(b, buf[..], text, pattern, replace, first, last, number - 1, number, dst, src, |pattern|, w);
  }

  /** Copies what is left of the text, in which nothing is replaced any more. */
  method CopyRest(buf: array<Byte>, slen: nat, dst: nat, src: nat, ghost text: seq<Byte>,
                  ghost pattern: seq<Byte>, ghost replace: seq<Byte>, ghost first: int, ghost last: int, ghost cur: nat)
    returns (len: nat)
    requires pattern != [] && Halfway(buf[..], text, pattern, replace, first, last, cur, dst, src) && |text| == slen
    requires Replaced(text[src..], pattern, replace, first, last, cur) == text[src..]
    modifies buf
    ensures len <= slen && buf[..len] == Replaced(text, pattern, replace, first, last, 0) && buf[len] == 0
  {
    hide Replaced;
    len := CopyTail(buf, dst, src, slen);
  }

  /** Patterns of two or more bytes.  The result has `len` bytes and is followed by a zero. */
  method ReplaceInPlace(buf: array<Byte>, slen: nat, pattern: seq<Byte>, replace: seq<Byte>, first: int, last: int)
    returns (len: nat)
    requires slen < buf.Length && |pattern| > 1 && |replace| <= |pattern|
    modifies buf
    ensures len <= slen && buf[..len] == Replaced(old(buf[..slen]), pattern, replace, first, last, 0) && buf[len] == 0
  {
    ghost var text := buf[..slen];
    assert text[0..] == text && buf[0..slen] == text;
    var table := BuildSkipTable(pattern);
    var src: nat, dst: nat, cur: nat := 0, 0, 0;
    hide Replaced, Skip, StartsWith;
    while src + |pattern| <= slen
      invariant Halfway(buf[..], text, pattern, replace, first, last, cur, dst, src)
      invariant table.Length == 256 && forall c: Byte :: table[c] == Skip(pattern, c)
      decreases slen - src
    {
      var skip := table[buf[src + |pattern| - 1]];
      Aligned(buf, text, pattern, src);
      if skip != 0 {
        SkippingIsSafe(text[src..], pattern, replace, first, last, cur, skip);
        src, dst := PassOver(buf, text, pattern, replace, first, last, cur, dst, src, skip);
      } else if buf[src..src + |pattern|] == pattern {
        cur := cur + 1;
        src, dst := TakeMatch(buf, pattern, replace, first, last, cur, dst, src, text);
        if first <= cur <= last && cur == last { break; }
      } else {
        OneStep(text[src..], pattern, replace, first, last, cur);
        src, dst := PassOver(buf, text, pattern, replace, first, last, cur, dst, src, 1);
      }
    }
    if src + |pattern| <= slen {
      NothingLeft(text[src..], pattern, replace, first, last, cur);
    } else {
      TooShort(text[src..], pattern, replace, first, last, cur);
    }
    len := CopyRest(buf, slen, dst, src, text, pattern, replace, first, last, cur);
  }

  /** The buffer under the pattern is the text under the pattern. */
  lemma {:induction false} Aligned(buf: array<Byte>, text: seq<Byte>, pattern: seq<Byte>, src: nat)
    requires pattern != [] && src + |pattern| <= |text| < buf.Length && buf[src..|text|] == text[src..]
    ensures buf[src + |pattern| - 1] == text[src..][|pattern| - 1]
    ensures buf[src..src + |pattern|] == pattern <==> StartsWith(text[src..], pattern)
  {
    assert buf[src + |pattern| - 1] == buf[src..|text|][|pattern| - 1];
    assert buf[src..src + |pattern|] == buf[src..|text|][..|pattern|];
  }

  lemma {:induction false} OneStep(text: seq<Byte>, pattern: seq<Byte>, replace: seq<Byte>, first: int, last: int, cur: nat)
    requires pattern != [] && text != [] && !StartsWith(text, pattern)
    ensures Replaced(text, pattern, replace, first, last, cur) == text[..1] + Replaced(text[1..], pattern, replace, first, last, cur)
  {
    assert text[..1] == [text[0]];
  }

  // ---------- Patterns of one byte ----------

  lemma {:induction false} ByteStep(done: seq<Byte>, text: seq<Byte>, src: nat, p: Byte, r: Byte, first: int, last: int, cur: nat)
    requires src < |text|
    ensures
      done + Replaced(text[src..], [p], [r], first, last, cur) ==
        if text[src] != p then (done + [text[src]]) + Replaced(text[src + 1..], [p], [r], first, last, cur)
        else (done + [if first <= cur + 1 <= last then r else p]) + Replaced(text[src + 1..], [p], [r], first, last, cur + 1)
  {
    assert text[src..][0] == text[src] && text[src..][1..] == text[src + 1..];
    OneByte(text[src..], p);
  }

  /** One byte is replaced by one byte: every occurrence is counted, to the end of the text. */
  method ReplaceBytes(buf: array<Byte>, slen: nat, p: Byte, r: Byte, first: int, last: int)
    requires slen < buf.Length
    modifies buf
    ensures buf[..slen] == Replaced(old(buf[..slen]), [p], [r], first, last, 0)
    ensures forall k :: slen <= k < buf.Length ==> buf[k] == old(buf[k])
  {
    ghost var text := buf[..slen];
    var src: nat, cur: nat := 0, 0;
    assert text[0..] == text;
    while src < slen
      invariant src <= slen
      invariant forall k :: src <= k < buf.Length ==> buf[k] == old(buf[k])
      invariant buf[..src] + Replaced(text[src..], [p], [r], first, last, cur) == Replaced(text, [p], [r], first, last, 0)
      decreases slen - src
    {
      ghost var done := buf[..src];
      ByteStep(done, text, src, p, r, first, last, cur);
      hide Replaced;
      assert text[src] == buf[src];
      if buf[src] == p {
        cur := cur + 1;
        if first <= cur <= last { buf[src] := r; }
      }
      src := src + 1;
      assert buf[..src] == done + [buf[src - 1]];
    }
    assert text[src..] == [];
  }

  /** What the branch for an empty replacement leaves of a text behind `cur` occurrences. */
  function Deleted(text: seq<Byte>, p: Byte, first: int, last: int, cur: nat): seq<Byte> {
    if text == [] then []
    else if text[0] != p then [text[0]] + Deleted(text[1..], p, first, last, cur)
    else if cur + 1 < first then [text[0]] + Deleted(text[1..], p, first, last, cur + 1)
    else DeletedOn(text[1..], p, last, cur + 1)
  }

  /** The same once one occurrence has been deleted. */
  function DeletedOn(text: seq<Byte>, p: Byte, last: int, cur: nat): seq<Byte> {
    if text == [] then []
    else if text[0] != p then [text[0]] + DeletedOn(text[1..], p, last, cur)
    else if cur + 1 <= last then DeletedOn(text[1..], p, last, cur + 1)
    else text
  }

  lemma {:induction false} DeletedOnIsReplaced(text: seq<Byte>, p: Byte, first: int, last: int, cur: nat)
    requires first <= cur + 1
    ensures DeletedOn(text, p, last, cur) == Replaced(text, [p], [], first, last, cur)
    decreases |text|
  {
    if text != [] {
      OneByte(text, p);
      if text[0] != p {
        DeletedOnIsReplaced(text[1..], p, first, last, cur);
      } else if cur + 1 <= last {
        DeletedOnIsReplaced(text[1..], p, first, last, cur + 1);
      } else {
        NothingLeft(text, [p], [], first, last, cur);
      }
    }
  }

  lemma {:induction false} OneByte(text: seq<Byte>, p: Byte)
    requires text != []
    ensures StartsWith(text, [p]) <==> text[0] == p
    ensures |[p]| == 1
  {
    assert text[..1] == [text[0]];
  }

  lemma {:induction false} DeletedIsReplaced(text: seq<Byte>, p: Byte, first: int, last: int, cur: nat)
    requires first <= last && cur + 1 <= last
    ensures Deleted(text, p, first, last, cur) == Replaced(text, [p], [], first, last, cur)
    decreases |text|
  {
    if text != [] {
      OneByte(text, p);
      if text[0] != p {
        DeletedIsReplaced(text[1..], p, first, last, cur);
      } else if cur + 1 < first {
        DeletedIsReplaced(text[1..], p, first, last, cur + 1);
      } else {
        DeletedOnIsReplaced(text[1..], p, first, last, cur + 1);
      }
    }
  }

  lemma {:induction false} DeletedShrinks(text: seq<Byte>, p: Byte, first: int, last: int)
    requires first <= last < 1 && p in text
    ensures |Deleted(text, p, first, last, 0)| == |text| - 1
    decreases |text|
  {
    if text[0] != p {
      DeletedShrinks(text[1..], p, first, last);
    } else {
      KeptOn(text[1..], p, last, 1);
    }
  }

  lemma {:induction false} KeptOn(text: seq<Byte>, p: Byte, last: int, cur: nat)
    requires last <= cur
    ensures DeletedOn(text, p, last, cur) == text
    decreases |text|
  {
    if text != [] && text[0] != p { KeptOn(text[1..], p, last, cur); }
  }

  lemma {:induction false} NothingToDelete(text: seq<Byte>, p: Byte, first: int, last: int, cur: nat)
    requires p !in text
    ensures Deleted(text, p, first, last, cur) == text == Replaced(text, [p], [], first, last, cur)
    decreases |text|
  {
    if text != [] {
      OneByte(text, p);
      NothingToDelete(text[1..], p, first, last, cur);
    }
  }

  /** The branch that deletes single bytes compares the number of the first deleted occurrence with
      `first` only (src/efuns_main.c:2520-2546).  So it is right exactly when last is positive or there
      is nothing to delete; otherwise it deletes one occurrence too many. */
  lemma {:induction false} DeletingIsRight(text: seq<Byte>, p: Byte, first: int, last: int)
    requires first <= last
    ensures Deleted(text, p, first, last, 0) == Replaced(text, [p], [], first, last, 0) <==> last >= 1 || p !in text
  {
    if last >= 1 {
      DeletedIsReplaced(text, p, first, last, 0);
    } else if p !in text {
      NothingToDelete(text, p, first, last, 0);
    } else {
      DeletedShrinks(text, p, first, last);
      NothingLeft(text, [p], [], first, last, 0);
    }
  }

  lemma {:induction false} DeletedStep(text: seq<Byte>, src: nat, p: Byte, first: int, last: int, cur: nat)
    requires src < |text|
    ensures
      text[..src] + Deleted(text[src..], p, first, last, cur) ==
        if text[src] != p then text[..src + 1] + Deleted(text[src + 1..], p, first, last, cur)
        else if cur + 1 < first then text[..src + 1] + Deleted(text[src + 1..], p, first, last, cur + 1)
        else text[..src] + DeletedOn(text[src + 1..], p, last, cur + 1)
  {
    assert text[src..][0] == text[src] && text[src..][1..] == text[src + 1..];
    assert text[..src + 1] == text[..src] + [text[src]];
  }

  lemma {:induction false} DeletedOnStep(done: seq<Byte>, text: seq<Byte>, src: nat, p: Byte, last: int, cur: nat)
    requires src < |text|
    ensures
      done + DeletedOn(text[src..], p, last, cur) ==
        if text[src] != p then (done + [text[src]]) + DeletedOn(text[src + 1..], p, last, cur)
        else if cur + 1 <= last then done + DeletedOn(text[src + 1..], p, last, cur + 1)
        else done + text[src..]
  {
    assert text[src..][0] == text[src] && text[src..][1..] == text[src + 1..];
  }

  method DeleteBytes(buf: array<Byte>, slen: nat, p: Byte, first: int, last: int) returns (len: nat)
    requires slen < buf.Length && first <= last
    modifies buf
    ensures len <= slen && buf[..len] == Deleted(old(buf[..slen]), p, first, last, 0)
    ensures last >= 1 ==> buf[..len] == Replaced(old(buf[..slen]), [p], [], first, last, 0)
  {
    ghost var text := buf[..slen];
    DeletingIsRight(text, p, first, last);
    var src: nat, cur: nat := 0, 0;
    assert text[0..] == text && text[..0] == [];
    while src < slen
      invariant src <= slen && buf[..slen] == text
      invariant text[..src] + Deleted(text[src..], p, first, last, cur) == Deleted(text, p, first, last, 0)
      decreases slen - src
    {
      DeletedStep(text, src, p, first, last, cur);
      assert buf[src] == text[src];
      src := src + 1;
      if buf[src - 1] == p {
        cur := cur + 1;
        if cur >= first {
          hide Deleted, DeletedOn, Replaced;
          assert buf[..src - 1] == text[..src - 1] && buf[src..slen] == text[src..];
          len := DeleteRest(buf, slen, p, last, cur, src);
          return;
        }
      }
    }
    len := slen;
    assert text[src..] == [] && text[..src] == text;
  }

  /** The rest of the text behind the first deleted byte. */
  method DeleteRest(buf: array<Byte>, slen: nat, p: Byte, last: int, cur0: nat, src0: nat) returns (dst: nat)
    requires 1 <= src0 <= slen < buf.Length
    modifies buf
    ensures dst <= slen && buf[..dst] == old(buf[..src0 - 1] + DeletedOn(buf[src0..slen], p, last, cur0))
  {
    ghost var head, text := buf[..src0 - 1], buf[..slen];
    ghost var result := head + DeletedOn(text[src0..], p, last, cur0);
    assert text[src0..] == buf[src0..slen];
    var src: nat, cur: nat := src0, cur0;
    dst := src0 - 1;
    while src < slen
      invariant dst < src && src0 <= src <= slen
      invariant forall k :: src <= k < slen ==> buf[k] == text[k]
      invariant buf[..dst] + DeletedOn(text[src..], p, last, cur) == result
      decreases slen - src
    {
      ghost var done := buf[..dst];
      DeletedOnStep(done, text, src, p, last, cur);
      hide DeletedOn;
      if buf[src] == p {
        cur := cur + 1;
        if cur > last {
          assert buf[src..slen] == text[src..];
          dst := CopyTail(buf, dst, src, slen);
          return;
        }
        src := src + 1;
      } else {
        buf[dst] := buf[src];
        dst := dst + 1;
        src := src + 1;
        assert buf[..dst] == done + [text[src - 1]];
      }
    }
    assert text[src..] == [];
    buf[dst] := 0;
  }

  // ---------- Longer replacements: what the search writes ----------

  /** One step of the search writes some bytes, and counts them or not. */
  datatype Piece = Piece(bytes: seq<Byte>, counted: bool)

  /** The steps of the search.  The bytes that the skip table passes over are copied, but not counted. */
  function Pieces(text: seq<Byte>, pattern: seq<Byte>, replace: seq<Byte>, first: int, last: int, cur: nat): seq<Piece>
    requires pattern != []
    decreases |text|
  {
    if |text| < |pattern| then [Piece(text, true)]
    else
      var k := Skip(pattern, text[|pattern| - 1]);
      if k != 0 then [Piece(text[..k], false)] + Pieces(text[k..], pattern, replace, first, last, cur)
      else if !StartsWith(text, pattern) then [Piece(text[..1], true)] + Pieces(text[1..], pattern, replace, first, last, cur)
      else
        var w, rest := if first <= cur + 1 <= last then replace else pattern, text[|pattern|..];
        [Piece(w, true)]
        + if first <= cur + 1 == last then [Piece(rest, true)] else Pieces(rest, pattern, replace, first, last, cur + 1)
  }

  /** All that is written. */
  function Joined(ps: seq<Piece>): seq<Byte> {
    if ps == [] then [] else Joined(ps[..|ps| - 1]) + ps[|ps| - 1].bytes
  }

  /** How much of it is counted. */
  function Counted(ps: seq<Piece>): nat {
    if ps == [] then 0 else Counted(ps[..|ps| - 1]) + if ps[|ps| - 1].counted then |ps[|ps| - 1].bytes| else 0
  }

  lemma {:induction false} OneMore(ps: seq<Piece>, p: Piece)
    ensures Joined(ps + [p]) == Joined(ps) + p.bytes
    ensures Counted(ps + [p]) == Counted(ps) + if p.counted then |p.bytes| else 0
  {
    assert (ps + [p])[..|ps|] == ps;
  }

  lemma {:induction false} JoinedAppends(p: Piece, ps: seq<Piece>)
    ensures Joined([p] + ps) == p.bytes + Joined(ps)
    decreases |ps|
  {
    OneMore([], p);
    NothingYet(ps);
    hide Joined, Counted;
    assert [p] + [] == [] + [p];
    if ps != [] {
      var init, q := ps[..|ps| - 1], ps[|ps| - 1];
      JoinedAppends(p, init);
      assert ps == init + [q] && [p] + ps == ([p] + init) + [q];
      OneMore([p] + init, q);
      OneMore(init, q);
    }
  }

  /** The search writes what it is for. */
  lemma {:induction false} PiecesAreReplaced(text: seq<Byte>, pattern: seq<Byte>, replace: seq<Byte>, first: int, last: int, cur: nat)
    requires pattern != []
    ensures Joined(Pieces(text, pattern, replace, first, last, cur)) == Replaced(text, pattern, replace, first, last, cur)
    decreases |text|
  {
    if |text| < |pattern| {
      TooShort(text, pattern, replace, first, last, cur);
      JoinedAppends(Piece(text, true), []);
    } else {
      var k := Skip(pattern, text[|pattern| - 1]);
      if k != 0 {
        SkippingIsSafe(text, pattern, replace, first, last, cur, k);
        PiecesAreReplaced(text[k..], pattern, replace, first, last, cur);
        JoinedAppends(Piece(text[..k], false), Pieces(text[k..], pattern, replace, first, last, cur));
      } else if !StartsWith(text, pattern) {
        OneStep(text, pattern, replace, first, last, cur);
        PiecesAreReplaced(text[1..], pattern, replace, first, last, cur);
        JoinedAppends(Piece(text[..1], true), Pieces(text[1..], pattern, replace, first, last, cur));
      } else {
        MatchIsReplaced(text, pattern, replace, first, last, cur);
      }
    }
  }

  lemma {:induction false} MatchIsReplaced(text: seq<Byte>, pattern: seq<Byte>, replace: seq<Byte>, first: int, last: int, cur: nat)
    requires pattern != [] && StartsWith(text, pattern) && Skip(pattern, text[|pattern| - 1]) == 0
    ensures Joined(Pieces(text, pattern, replace, first, last, cur)) == Replaced(text, pattern, replace, first, last, cur)
    decreases |text|, 0
  {
    var w, rest := if first <= cur + 1 <= last then replace else pattern, text[|pattern|..];
    if first <= cur + 1 == last {
      NothingLeft(rest, pattern, replace, first, last, cur + 1);
      JoinedAppends(Piece(rest, true), []);
      JoinedAppends(Piece(w, true), [Piece(rest, true)]);
    } else {
      PiecesAreReplaced(rest, pattern, replace, first, last, cur + 1);
      JoinedAppends(Piece(w, true), Pieces(rest, pattern, replace, first, last, cur + 1));
    }
  }

  /** The first j steps are taken: none that is counted reaches the limit. */
  predicate Taken(ps: seq<Piece>, j: nat, max: nat) {
    j <= |ps| && forall i :: 0 <= i < j && ps[i].counted ==> Counted(ps[..i + 1]) < max
  }

  lemma {:induction false} TakenOneMore(ps: seq<Piece>, p: Piece, max: nat)
    requires Taken(ps, |ps|, max) && (p.counted ==> Counted(ps) + |p.bytes| < max)
    ensures Taken(ps + [p], |ps| + 1, max)
  {
    OneMore(ps, p);
    hide Counted;
    var all := ps + [p];
    forall i | 0 <= i < |all| && all[i].counted ensures Counted(all[..i + 1]) < max {
      if i < |ps| { assert all[..i + 1] == ps[..i + 1]; } else { assert all[..i + 1] == all; }
    }
  }

  /** The target has max + 1 cells.  It is left by a step that is taken, or by the zero behind a result. */
  ghost predicate Overruns(ps: seq<Piece>, max: nat) {
    || (exists j: nat :: Taken(ps, j, max) && |Joined(ps[..j])| > max + 1)
    || (Counted(ps) < max < |Joined(ps)|)
  }

  lemma {:induction false} PrefixIsLess(ps: seq<Piece>, j: nat)
    requires j <= |ps|
    ensures |Joined(ps[..j])| <= |Joined(ps)| && Counted(ps[..j]) <= Counted(ps)
    ensures |Joined(ps[..j])| - Counted(ps[..j]) <= |Joined(ps)| - Counted(ps)
    decreases |ps|
  {
    if j < |ps| {
      PrefixIsLess(ps[..|ps| - 1], j);
      assert ps[..|ps| - 1][..j] == ps[..j];
    } else {
      assert ps[..j] == ps;
    }
  }

  /** The length of the result, as far as it is counted. */
  function CountedLength(text: seq<Byte>, pattern: seq<Byte>, replace: seq<Byte>, first: int, last: int): nat
    requires pattern != []
  {
    Counted(Pieces(text, pattern, replace, first, last, 0))
  }

  /** How many bytes the search passes over by the skip table. */
  function Skipped(text: seq<Byte>, pattern: seq<Byte>, replace: seq<Byte>, first: int, last: int): int
    requires pattern != []
  {
    |Replaced(text, pattern, replace, first, last, 0)| - CountedLength(text, pattern, replace, first, last)
  }

  /** Whether the search writes behind its target. */
  ghost predicate WritesBehind(text: seq<Byte>, pattern: seq<Byte>, replace: seq<Byte>, first: int, last: int, max: nat)
    requires pattern != []
  {
    Overruns(Pieces(text, pattern, replace, first, last, 0), max)
  }

  /** A result that has `max` bytes or more should be refused.  The answer is wrong exactly when the skipped bytes
      make the difference.  The target is left, when a result is returned, exactly when that is longer than
      `max`; when it is refused, only if it is longer and bytes were skipped, and exactly when the steps taken
      before the refusal wrote more than `max + 1` bytes. */
  lemma {:induction false} LimitIsKept(text: seq<Byte>, pattern: seq<Byte>, replace: seq<Byte>, first: int, last: int, max: nat)
    requires pattern != []
    ensures
      var ps, n := Pieces(text, pattern, replace, first, last, 0), |Replaced(text, pattern, replace, first, last, 0)|;
      var counted, skipped := CountedLength(text, pattern, replace, first, last), Skipped(text, pattern, replace, first, last);
      && ((counted < max <==> n < max) <==> !(max <= n < max + skipped))
      && (counted < max ==> (WritesBehind(text, pattern, replace, first, last, max) <==> n > max))
      && (counted >= max ==>
            (WritesBehind(text, pattern, replace, first, last, max) <==>
              exists j: nat :: Taken(ps, j, max) && |Joined(ps[..j])| > max + 1))
      && (WritesBehind(text, pattern, replace, first, last, max) ==> n > max && skipped > 0)
  {
    hide Pieces, Replaced, Joined, Counted, Overruns, Taken;
    PiecesAreReplaced(text, pattern, replace, first, last, 0);
    OverrunLimits(Pieces(text, pattern, replace, first, last, 0), max);
  }

  lemma {:induction false} OverrunLimits(ps: seq<Piece>, max: nat)
    ensures Counted(ps) <= |Joined(ps)|
    ensures Counted(ps) < max ==> (Overruns(ps, max) <==> |Joined(ps)| > max)
    ensures Counted(ps) >= max ==> (Overruns(ps, max) <==> exists j: nat :: Taken(ps, j, max) && |Joined(ps[..j])| > max + 1)
    ensures Overruns(ps, max) ==> |Joined(ps)| > max && Counted(ps) < |Joined(ps)|
  {
    NothingYet(ps);
    hide Joined, Counted;
    PrefixIsLess(ps, 0);
    forall j: nat | Taken(ps, j, max) && |Joined(ps[..j])| > max + 1 ensures |Joined(ps)| > max && Counted(ps) < |Joined(ps)| {
      TakenIsBelow(ps, j, max);
      PrefixIsLess(ps, j);
    }
  }

  /** What is counted in the steps taken is below the limit, or nothing. */
  lemma {:induction false} TakenIsBelow(ps: seq<Piece>, j: nat, max: nat)
    requires Taken(ps, j, max)
    ensures Counted(ps[..j]) < max || Counted(ps[..j]) == 0
    decreases j
  {
    if j > 0 {
      TakenIsBelow(ps, j - 1, max);
      assert ps[..j][..j - 1] == ps[..j - 1];
    }
  }

  lemma {:induction false} NothingYet(ps: seq<Piece>)
    ensures ps[..0] == [] && Joined(ps[..0]) == [] && Counted(ps[..0]) == 0
  {}

  // ---------- Longer replacements: the search ----------

  /** The cells hold as much of s as they have room for. */
  predicate Holds(cells: seq<Byte>, s: seq<Byte>) {
    forall i :: 0 <= i < |cells| && i < |s| ==> cells[i] == s[i]
  }

  /** Stores bytes from `at` on.  Those that fall behind the target are not part of the model. */
  method Store(target: array<Byte>, at: nat, bytes: seq<Byte>, ghost written: seq<Byte>)
    requires |written| == at && Holds(target[..], written)
    modifies target
    ensures Holds(target[..], written + bytes)
  {
    var i := 0;
    while i < |bytes| && at + i < target.Length
      invariant 0 <= i <= |bytes| && Holds(target[..], written + bytes[..i])
    {
      target[at + i] := bytes[i];
      i := i + 1;
    }
    if i < |bytes| { EnoughHeld(target[..], written, bytes, i); } else { assert bytes[..i] == bytes; }
  }

  lemma {:induction false} EnoughHeld(cells: seq<Byte>, written: seq<Byte>, bytes: seq<Byte>, i: nat)
    requires i <= |bytes| && |cells| <= |written| + i && Holds(cells, written + bytes[..i])
    ensures Holds(cells, written + bytes)
  {
    forall k | 0 <= k < |cells| && k < |written + bytes| ensures cells[k] == (written + bytes)[k] {
      assert (written + bytes)[k] == (written + bytes[..i])[k];
    }
  }

  /** The steps done and the steps still to do. */
  ghost predicate Halving(done: seq<Piece>, all: seq<Piece>, text: seq<Byte>, src: nat, pattern: seq<Byte>, replace: seq<Byte>,
                          first: int, last: int, cur: nat)
    requires pattern != []
  {
    src <= |text| && all == done + Pieces(text[src..], pattern, replace, first, last, cur)
  }

  /** What a run has done: the target holds what was written, `dlen` is what was counted, and `overrun` tells
      whether the target was left. */
  ghost predicate Ran(done: seq<Piece>, cells: seq<Byte>, at: nat, dlen: int, overrun: bool, max: nat) {
    && at == |Joined(done)| && dlen == Counted(done) && Taken(done, |done|, max) && |cells| == max + 1
    && (overrun <==> at > max + 1) && Holds(cells, Joined(done))
  }

  /** A step is taken. */
  method Write(target: array<Byte>, at0: nat, ghost dlen: int, ghost overrun0: bool, max: nat, p: Piece, ghost done: seq<Piece>)
    returns (at: nat, ghost overrun: bool)
    requires Ran(done, target[..], at0, dlen, overrun0, max) && (p.counted ==> dlen + |p.bytes| < max)
    modifies target
    ensures Ran(done + [p], target[..], at, if p.counted then dlen + |p.bytes| else dlen, overrun, max)
  {
    OneMore(done, p);
    TakenOneMore(done, p, max);
    hide Joined, Counted, Holds, Taken;
    Store(target, at0, p.bytes, Joined(done));
    at := at0 + |p.bytes|;
    overrun := at > max + 1;
  }

  lemma {:induction false} NextPiece(done: seq<Piece>, all: seq<Piece>, text: seq<Byte>, src: nat, pattern: seq<Byte>,
                                     replace: seq<Byte>, first: int, last: int, cur: nat)
    requires pattern != [] && Halving(done, all, text, src, pattern, replace, first, last, cur) && src + |pattern| <= |text|
    ensures
      var skip := Skip(pattern, text[src + |pattern| - 1]);
      if skip != 0 then
        Halving(done + [Piece(text[src..src + skip], false)], all, text, src + skip, pattern, replace, first, last, cur)
      else if text[src..src + |pattern|] != pattern then
        Halving(done + [Piece([text[src]], true)], all, text, src + 1, pattern, replace, first, last, cur)
      else
        var p, src' := Piece(if first <= cur + 1 <= last then replace else pattern, true), src + |pattern|;
        if first <= cur + 1 == last then all == done + [p] + [Piece(text[src'..], true)]
        else Halving(done + [p], all, text, src', pattern, replace, first, last, cur + 1)
  {
    hide Pieces, Skip, StartsWith;
    FirstPiece(text, src, pattern, replace, first, last, cur);
  }

  lemma {:induction false} FirstPiece(text: seq<Byte>, src: nat, pattern: seq<Byte>, replace: seq<Byte>, first: int, last: int, cur: nat)
    requires pattern != [] && src + |pattern| <= |text|
    ensures
      var ps, skip := Pieces(text[src..], pattern, replace, first, last, cur), Skip(pattern, text[src + |pattern| - 1]);
      ps ==
        if skip != 0 then [Piece(text[src..src + skip], false)] + Pieces(text[src + skip..], pattern, replace, first, last, cur)
        else if text[src..src + |pattern|] != pattern then
          [Piece([text[src]], true)] + Pieces(text[src + 1..], pattern, replace, first, last, cur)
        else
          var p, src' := Piece(if first <= cur + 1 <= last then replace else pattern, true), src + |pattern|;
          [p] + if first <= cur + 1 == last then [Piece(text[src'..], true)]
                else Pieces(text[src'..], pattern, replace, first, last, cur + 1)
  {
    hide Skip, Pieces;
    var rest := text[src..];
    assert rest[|pattern| - 1] == text[src + |pattern| - 1];
    SliceOfRest(text, src, Skip(pattern, rest[|pattern| - 1]));
    SliceOfRest(text, src, 1);
    SliceOfRest(text, src, |pattern|);
    FirstOfPieces(rest, pattern, replace, first, last, cur);
  }

  lemma {:induction false} FirstOfPieces(text: seq<Byte>, pattern: seq<Byte>, replace: seq<Byte>, first: int, last: int, cur: nat)
    requires 0 < |pattern| <= |text|
    ensures
      var ps, skip := Pieces(text, pattern, replace, first, last, cur), Skip(pattern, text[|pattern| - 1]);
      ps ==
        if skip != 0 then [Piece(text[..skip], false)] + Pieces(text[skip..], pattern, replace, first, last, cur)
        else if text[..|pattern|] != pattern then
          [Piece(text[..1], true)] + Pieces(text[1..], pattern, replace, first, last, cur)
        else
          [Piece(if first <= cur + 1 <= last then replace else pattern, true)]
          + if first <= cur + 1 == last then [Piece(text[|pattern|..], true)]
            else Pieces(text[|pattern|..], pattern, replace, first, last, cur + 1)
  {
    hide Skip;
  }

  lemma {:induction false} SliceOfRest(text: seq<Byte>, src: nat, n: nat)
    requires src + n <= |text|
    ensures text[src..][n..] == text[src + n..] && text[src..][..n] == text[src..src + n]
    ensures n == 1 ==> text[src..src + n] == [text[src]]
  {}

  lemma {:induction false} LastPiece(done: seq<Piece>, all: seq<Piece>, text: seq<Byte>, src: nat, pattern: seq<Byte>,
                                     replace: seq<Byte>, first: int, last: int, cur: nat)
    requires pattern != [] && Halving(done, all, text, src, pattern, replace, first, last, cur) && src + |pattern| > |text|
    ensures all == done + [Piece(text[src..], true)]
  {}

  /** A run that stops before step p, because p would reach the limit. */
  lemma {:induction false} Stopped(done: seq<Piece>, p: Piece, more: seq<Piece>, cells: seq<Byte>, at: nat, dlen: int, overrun: bool, max: nat)
    requires Ran(done, cells, at, dlen, overrun, max) && p.counted && dlen + |p.bytes| >= max
    ensures var all := done + [p] + more; Counted(all) >= max && (Overruns(all, max) <==> overrun)
  {
    var all, n := done + [p] + more, |done|;
    assert all[..n] == done && all[..n + 1] == done + [p] && all[n] == p;
    OneMore(done, p);
    hide Joined, Counted, Holds;
    PrefixIsLess(all, n + 1);
    assert Taken(all, n, max) by {
      forall i | 0 <= i < n && all[i].counted ensures Counted(all[..i + 1]) < max { assert all[..i + 1] == done[..i + 1]; }
    }
    forall j: nat | Taken(all, j, max) && |Joined(all[..j])| > max + 1 ensures overrun {
      assert j <= n;
      assert done[..j] == all[..j];
      PrefixIsLess(done, j);
    }
  }

  /** A run that is complete. */
  lemma {:induction false} Completed(all: seq<Piece>, cells: seq<Byte>, at: nat, dlen: int, overrun: bool, max: nat)
    requires Ran(all, cells, at, dlen, overrun, max) && dlen < max
    ensures Overruns(all, max) <==> at > max
    ensures at <= max ==> cells[..at] == Joined(all)
  {
    hide Joined, Counted;
    forall j: nat | Taken(all, j, max) && |Joined(all[..j])| > max + 1 ensures at > max { PrefixIsLess(all, j); }
  }

  /** The rest of the text, and the zero behind the result. */
  method Finish(target: array<Byte>, at0: nat, dlen0: int, ghost overrun0: bool, max: nat, rest: seq<Byte>,
                ghost done: seq<Piece>, ghost all: seq<Piece>)
    returns (r: Option<seq<Byte>>, ghost overrun: bool)
    requires Ran(done, target[..], at0, dlen0, overrun0, max) && all == done + [Piece(rest, true)]
    modifies target
    ensures (r.Some? <==> Counted(all) < max) && (overrun <==> Overruns(all, max))
    ensures r.Some? && !overrun ==> r.value == Joined(all)
  {
    ghost var p := Piece(rest, true);
    OneMore(done, p);
    assert all == done + [p] + [];
    hide Joined, Counted, Overruns;
    if max - dlen0 <= |rest| {
      Stopped(done, p, [], target[..], at0, dlen0, overrun0, max);
      return None, overrun0;
    }
    var at;
    at, overrun := Write(target, at0, dlen0, overrun0, max, Piece(rest, true), done);
    Completed(all, target[..], at, dlen0 + |rest|, overrun, max);
    overrun := at > max;
    if at <= max {
      ghost var written := target[..at];
      target[at] := 0;
      assert target[..at] == written;
      return Some(target[..at]), overrun;
    }
    return Some(target[..]), overrun;
  }

  /** The next step of the search, and whether it replaces the last occurrence to be replaced. */
  method ChoosePiece(table: array<nat>, text: seq<Byte>, src: nat, pattern: seq<Byte>, replace: seq<Byte>, first: int, last: int,
                     cur0: nat, ghost done: seq<Piece>, ghost all: seq<Piece>)
    returns (p: Piece, step: nat, cur: nat, ends: bool)
    requires table.Length == 256 && forall c: Byte :: table[c] == Skip(pattern, c)
    requires pattern != [] && src + |pattern| <= |text| && Halving(done, all, text, src, pattern, replace, first, last, cur0)
    ensures 0 < step && src + step <= |text| && done + [p] <= all
    ensures if ends then all == done + [p] + [Piece(text[src + step..], true)]
            else Halving(done + [p], all, text, src + step, pattern, replace, first, last, cur)
  {
    hide Pieces, Skip;
    NextPiece(done, all, text, src, pattern, replace, first, last, cur0);
    cur, ends := cur0, false;
    step := table[text[src + |pattern| - 1]];
    if step != 0 {
      p := Piece(text[src..src + step], false);
    } else if text[src..src + |pattern|] == pattern {
      cur := cur + 1;
      p, step, ends := Piece(if first <= cur <= last then replace else pattern, true), |pattern|, first <= cur == last;
    } else {
      p, step := Piece([text[src]], true), 1;
    }
  }

  /** Patterns of two or more bytes; None is the answer that the result would be too long.  The target is a new
      string of `max` bytes and a zero; `overrun` tells whether a byte was written behind it, and then nothing
      is said about the bytes of the result. */
  method ReplaceLonger(text: seq<Byte>, pattern: seq<Byte>, replace: seq<Byte>, first: int, last: int, max: nat)
    returns (r: Option<seq<Byte>>, ghost overrun: bool)
    requires |pattern| > 1
    ensures r.Some? <==> CountedLength(text, pattern, replace, first, last) < max
    ensures overrun <==> WritesBehind(text, pattern, replace, first, last, max)
    ensures r.Some? && !overrun ==> r.value == Replaced(text, pattern, replace, first, last, 0)
  {
    hide Replaced, Pieces, Skip, Joined, Counted, Overruns, Halving, Ran;
    ghost var all := Pieces(text, pattern, replace, first, last, 0);
    PiecesAreReplaced(text, pattern, replace, first, last, 0);
    var table := BuildSkipTable(pattern);
    var target := new Byte[max + 1](_ => 0);
    var src: nat, cur: nat, at: nat, dlen: int := 0, 0, 0, 0;
    ghost var done: seq<Piece> := [];
    overrun := false;
    StartOfRun(all, target[..], text, pattern, replace, first, last, max);
    while src + |pattern| <= |text|
      invariant src <= |text| && table.Length == 256 && fresh(target)
      invariant forall c: Byte :: table[c] == Skip(pattern, c)
      invariant Halving(done, all, text, src, pattern, replace, first, last, cur)
      invariant Ran(done, target[..], at, dlen, overrun, max)
      decreases |text| - src
    {
      var p: Piece, step: nat, ends: bool;
      p, step, cur, ends := ChoosePiece(table, text, src, pattern, replace, first, last, cur, done, all);
      if p.counted && max - dlen <= |p.bytes| {
        StopsHere(done, p, all, target[..], at, dlen, overrun, max);
        return None, overrun;
      }
      at, overrun := Write(target, at, dlen, overrun, max, p, done);
      done := done + [p];
      if p.counted { dlen := dlen + |p.bytes|; }
      src := src + step;
      if ends {
        r, overrun := Finish(target, at, dlen, overrun, max, text[src..], done, all);
        return;
      }
    }
    LastPiece(done, all, text, src, pattern, replace, first, last, cur);
    r, overrun := Finish(target, at, dlen, overrun, max, text[src..], done, all);
  }

  lemma {:induction false} StartOfRun(all: seq<Piece>, cells: seq<Byte>, text: seq<Byte>, pattern: seq<Byte>, replace: seq<Byte>,
                                      first: int, last: int, max: nat)
    requires pattern != [] && all == Pieces(text, pattern, replace, first, last, 0) && |cells| == max + 1
    ensures Halving([], all, text, 0, pattern, replace, first, last, 0) && Ran([], cells, 0, 0, false, max)
  {
    assert text[0..] == text && [] + all == all;
  }

  lemma {:induction false} StopsHere(done: seq<Piece>, p: Piece, all: seq<Piece>, cells: seq<Byte>, at: nat, dlen: int, overrun: bool, max: nat)
    requires Ran(done, cells, at, dlen, overrun, max) && p.counted && dlen + |p.bytes| >= max && done + [p] <= all
    ensures Counted(all) >= max && (Overruns(all, max) <==> overrun)
  {
    assert all == done + [p] + all[|done| + 1..];
    Stopped(done, p, all[|done| + 1..], cells, at, dlen, overrun, max);
  }

  /** abxx, with abc for ab, has five bytes and is returned although no string may have more than four; its zero
      lies behind the target. */
  lemma {:induction false} LimitIsMissed()
    ensures
      var a, b, c, x: Byte := 97, 98, 99, 120;
      var text, pattern, replace := [a, b, x, x], [a, b], [a, b, c];
      && CountedLength(text, pattern, replace, 0, 4) < 4 < |Replaced(text, pattern, replace, 0, 4, 0)|
      && WritesBehind(text, pattern, replace, 0, 4, 4)
  {
    hide Replaced, Pieces, Joined, Counted, Taken, Skip, StartsWith;
    var a, b, c, x: Byte := 97, 98, 99, 120;
    var text, pattern, replace: seq<Byte> := [a, b, x, x], [a, b], [a, b, c];
    var rest: seq<Byte> := [x, x];
    PiecesOfAbxx(replace);
    ThreeSteps(Piece(replace, true), Piece(rest, false), Piece([], true));
    PiecesAreReplaced(text, pattern, replace, 0, 4, 0);
  }

  lemma {:induction false} PiecesOfAbxx(replace: seq<Byte>)
    ensures
      var a, b, x: Byte := 97, 98, 120;
      Pieces([a, b, x, x], [a, b], replace, 0, 4, 0) == [] + [Piece(replace, true)] + [Piece([x, x], false)] + [Piece([], true)]
  {
    hide Skip;
    var a, b, x: Byte := 97, 98, 120;
    var text, rest, pattern: seq<Byte> := [a, b, x, x], [x, x], [a, b];
    SkipsOfAb();
    assert text[2..] == rest && text[..2] == pattern && rest[..2] == rest && rest[2..] == [];
    assert Pieces([], pattern, replace, 0, 4, 1) == [Piece([], true)];
    assert Pieces(rest, pattern, replace, 0, 4, 1) == [Piece(rest, false), Piece([], true)];
  }

  /** xxxxabab, with six bytes for ab, is rightly refused where no string may have more than eight bytes; but by
      then ten bytes have been written to a target of nine. */
  lemma {:induction false} RefusedTooLate(replace: seq<Byte>)
    requires |replace| == 6
    ensures
      var a, b, x: Byte := 97, 98, 120;
      var text, pattern := [x, x, x, x, a, b, a, b], [a, b];
      && CountedLength(text, pattern, replace, 0, 8) >= 8 && |Replaced(text, pattern, replace, 0, 8, 0)| == 16
      && WritesBehind(text, pattern, replace, 0, 8, 8)
  {
    hide Replaced, Pieces, Joined, Counted, Overruns, Skip, StartsWith;
    var a, b, x: Byte := 97, 98, 120;
    PiecesOfXxxxabab(replace);
    PiecesAreReplaced([x, x, x, x, a, b, a, b], [a, b], replace, 0, 8, 0);
    LateOverrun(Piece([x, x], false), Piece(replace, true), Piece([], true));
  }

  lemma {:induction false} PiecesOfXxxxabab(replace: seq<Byte>)
    ensures
      var a, b, x: Byte := 97, 98, 120;
      var s, m := Piece([x, x], false), Piece(replace, true);
      Pieces([x, x, x, x, a, b, a, b], [a, b], replace, 0, 8, 0) == [] + [s] + [s] + [m] + [m] + [Piece([], true)]
  {
    hide Skip;
    var a, b, x: Byte := 97, 98, 120;
    var text, pattern: seq<Byte> := [x, x, x, x, a, b, a, b], [a, b];
    SkipsOfAb();
    var t2, t4, t6: seq<Byte>, xx: seq<Byte> := text[2..], text[4..], text[6..], [x, x];
    assert t2 == [x, x, a, b, a, b] && t4 == [a, b, a, b] && t6 == [a, b];
    assert text[..2] == t2[..2] == xx && t2[2..] == t4 && t4[..2] == t6[..2] == pattern && t4[2..] == t6 && t6[2..] == [];
    var m := Piece(replace, true);
    assert Pieces([], pattern, replace, 0, 8, 2) == [Piece([], true)];
    assert Pieces(t6, pattern, replace, 0, 8, 1) == [m, Piece([], true)];
    assert Pieces(t4, pattern, replace, 0, 8, 0) == [m, m, Piece([], true)];
    assert Pieces(t2, pattern, replace, 0, 8, 0) == [Piece(xx, false), m, m, Piece([], true)];
  }

  lemma {:induction false} LateOverrun(s: Piece, m: Piece, last: Piece)
    requires !s.counted && |s.bytes| == 2 && m.counted && |m.bytes| == 6 && last == Piece([], true)
    ensures
      var ps := [] + [s] + [s] + [m] + [m] + [last];
      Counted(ps) == 12 && |Joined(ps)| == 16 && Overruns(ps, 8)
  {
    var ps3 := [] + [s] + [s] + [m];
    var ps := ps3 + [m] + [last];
    ThreeSteps(s, s, m);
    OneMore(ps3, m);
    OneMore(ps3 + [m], last);
    hide Joined, Counted;
    assert ps[..3] == ps3;
    assert Taken(ps, 3, 8) by { assert ps[..2 + 1] == ps3; }
  }

  lemma {:induction false} ThreeSteps(p: Piece, q: Piece, r: Piece)
    ensures
      var ps := [] + [p] + [q] + [r];
      && Joined(ps) == p.bytes + q.bytes + r.bytes
      && Counted(ps) == (if p.counted then |p.bytes| else 0) + (if q.counted then |q.bytes| else 0) + (if r.counted then |r.bytes| else 0)
  {
    OneMore([], p);
    OneMore([] + [p], q);
    OneMore([] + [p] + [q], r);
  }

  lemma {:induction false} SkipsOfAb()
    ensures var a, b, x: Byte := 97, 98, 120; Skip([a, b], b) == 0 && Skip([a, b], x) == 2
  {
    var a, b, x: Byte := 97, 98, 120;
    var ab: seq<Byte> := [a, b];
    assert ab[..1] == [a] && [a][..0] == [];
    assert Skip([a], x) == 1;
  }

  method Append(target: array<Byte>, at: nat, bytes: seq<Byte>)
    requires at + |bytes| <= target.Length
    modifies target
    ensures target[..at + |bytes|] == old(target[..at]) + bytes
  {
    CopyIn(target, at, bytes);
  }

  /** Patterns of one byte: here every byte is counted, the limit is kept, and every byte lies in the target. */
  method ReplaceByteLonger(text: seq<Byte>, p: Byte, replace: seq<Byte>, first: int, last: int, max: nat)
    returns (r: Option<seq<Byte>>)
    requires |replace| > 1
    ensures r.Some? <==> text == [] || |Replaced(text, [p], replace, first, last, 0)| < max
    ensures r.Some? ==> r.value == Replaced(text, [p], replace, first, last, 0)
  {
    assert text[0..] == text;
    var target := new Byte[max + 1](_ => 0);
    var src: nat, cur: nat, at: nat, dlen := 0, 0, 0, 0;
    assert target[..at] == [];
    while src < |text|
      invariant src <= |text| && dlen == at && (src > 0 ==> dlen < max) && fresh(target) && target.Length == max + 1 && at <= max
      invariant target[..at] + Replaced(text[src..], [p], replace, first, last, cur) == Replaced(text, [p], replace, first, last, 0)
    {
      LongerStep(target[..at], text, src, p, replace, first, last, cur);
      hide Replaced;
      if text[src] == p {
        cur := cur + 1;
        if first <= cur <= last {
          if max - dlen <= |replace| { return None; }
          Append(target, at, replace);
          at, dlen := at + |replace|, dlen + |replace|;
          src := src + 1;
          continue;
        }
      }
      if max - dlen <= 1 { return None; }
      Append(target, at, [text[src]]);
      at, dlen := at + 1, dlen + 1;
      src := src + 1;
    }
    assert text[src..] == [];
    r := Some(target[..at]);
    target[at] := 0;
  }

  lemma {:induction false} LongerStep(done: seq<Byte>, text: seq<Byte>, src: nat, p: Byte, replace: seq<Byte>, first: int, last: int, cur: nat)
    requires src < |text|
    ensures
      done + Replaced(text[src..], [p], replace, first, last, cur) ==
        if text[src] != p then (done + [text[src]]) + Replaced(text[src + 1..], [p], replace, first, last, cur)
        else (done + if first <= cur + 1 <= last then replace else [text[src]])
             + Replaced(text[src + 1..], [p], replace, first, last, cur + 1)
  {
    assert text[src..][0] == text[src] && text[src..][1..] == text[src + 1..];
    OneByte(text[src..], p);
  }

  // ---------- The arguments ----------

  /** The optional arguments: none, a maximum, or the numbers of the first and the last replacement. */
  datatype Range = All | AtMost(max: int) | Between(first: int, last: int)

  function First(r: Range): int { if r.Between? then r.first else 0 }

  /** Zero stands for the length no string exceeds. */
  function Last(r: Range, maxLength: nat): int {
    var n := match r case All => 0 case AtMost(max) => max case Between(_, last) => last;
    if n == 0 then maxLength else n
  }

  /** replace_string when the replacement is no longer than the pattern.  The result is right except
      for a negative last together with an empty replacement for a single byte that occurs. */
  method ReplaceShorter(buf: array<Byte>, slen: nat, pattern: seq<Byte>, replace: seq<Byte>, first: int, last: int)
    returns (len: nat)
    requires slen < buf.Length && |replace| <= |pattern| && pattern != [] && first <= last
    modifies buf
    ensures len <= slen
    ensures last >= 1 || |pattern| > 1 || replace != [] || pattern[0] !in old(buf[..slen]) ==>
      buf[..len] == Replaced(old(buf[..slen]), pattern, replace, first, last, 0)
  {
    len := slen;
    if |pattern| > 1 {
      len := ReplaceInPlace(buf, slen, pattern, replace, first, last);
    } else {
      assert pattern == [pattern[0]];
      if replace != [] {
        assert replace == [replace[0]];
        ReplaceBytes(buf, slen, pattern[0], replace[0], first, last);
      } else {
        DeletingIsRight(buf[..slen], pattern[0], first, last);
        len := DeleteBytes(buf, slen, pattern[0], first, last);
      }
    }
  }

  /** What the result should be. */
  function Wanted(text: seq<Byte>, pattern: seq<Byte>, replace: seq<Byte>, range: Range, maxLength: nat): seq<Byte> {
    if pattern == [] then text else Replaced(text, pattern, replace, First(range), Last(range, maxLength), 0)
  }

  /** replace_string.  The text is `slen` bytes long, with a zero behind it.  `overrun` tells whether a byte was
      written behind the new string that a longer result needs. */
  method ReplaceString(buf: array<Byte>, slen: nat, pattern: seq<Byte>, replace: seq<Byte>, range: Range, maxLength: nat)
    returns (r: Option<seq<Byte>>, ghost overrun: bool)
    requires slen < buf.Length
    modifies buf
    ensures First(range) > Last(range, maxLength) || pattern == [] ==>
      r == Some(old(buf[..slen])) && r.value == Wanted(old(buf[..slen]), pattern, replace, range, maxLength)
    ensures r.Some? && !overrun && (Last(range, maxLength) >= 1 || |pattern| != 1 || replace != [] || pattern[0] !in old(buf[..slen])) ==>
      r.value == Wanted(old(buf[..slen]), pattern, replace, range, maxLength)
    ensures |replace| <= |pattern| ==> r.Some?
    ensures First(range) <= Last(range, maxLength) && |replace| > |pattern| == 1 ==>
      (r.Some? <==> slen == 0 || |Wanted(old(buf[..slen]), pattern, replace, range, maxLength)| < maxLength)
    ensures First(range) <= Last(range, maxLength) && |replace| > |pattern| > 1 ==>
      (r.Some? <==> CountedLength(old(buf[..slen]), pattern, replace, First(range), Last(range, maxLength)) < maxLength)
    ensures overrun <==>
      && First(range) <= Last(range, maxLength) && |replace| > |pattern| > 1
      && WritesBehind(old(buf[..slen]), pattern, replace, First(range), Last(range, maxLength), maxLength)
  {
    hide Replaced, CountedLength, WritesBehind;
    var first, last := First(range), Last(range, maxLength);
    overrun := false;
    if first > last {
      if pattern != [] { NothingLeft(buf[..slen], pattern, replace, first, last, 0); }
      return Some(buf[..slen]), false;
    }
    if pattern == [] { return Some(buf[..slen]), false; }
    if |replace| <= |pattern| {
      var len := ReplaceShorter(buf, slen, pattern, replace, first, last);
      return Some(buf[..len]), false;
    }
    if |pattern| > 1 {
      r, overrun := ReplaceLonger(buf[..slen], pattern, replace, first, last, maxLength);
    } else {
      assert pattern == [pattern[0]];
      r := ReplaceByteLonger(buf[..slen], pattern[0], replace, first, last, maxLength);
    }
  }
}
