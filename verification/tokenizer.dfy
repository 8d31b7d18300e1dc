/**
 * The greedy tokenizer: it scans the source bytes from left to right, emits at
 * each offset the first instruction of the table found there, and otherwise
 * skips one codepoint of text.
 */
module Tokenizer {
  import opened Wrappers
  import opened Utf8
  import opened Instructions

  /** The bytes of `inst` occur in `code` at offset `i`. */
  predicate MatchesAt(code: seq<byte>, i: nat, inst: seq<byte>)
  {
    i + |inst| <= |code| && forall j :: 0 <= j < |inst| ==> code[i + j] == inst[j]
  }

  /** No instruction of the table is empty (an empty one would match without advancing). */
  predicate NoEmptyInstruction(insts: seq<seq<byte>>)
  {
    forall k :: 0 <= k < |insts| ==> |insts[k]| > 0
  }

  /** The index of the first instruction of `insts` that occurs at offset `i`, if any. */
  function FirstMatch(code: seq<byte>, insts: seq<seq<byte>>, i: nat): (r: Option<nat>)
    ensures r.Some? ==> r.value < |insts| && MatchesAt(code, i, insts[r.value])
  {
    FirstMatchFromIsLeast(code, insts, i, 0);
    FirstMatchFrom(code, insts, i, 0)
  }

  function FirstMatchFrom(code: seq<byte>, insts: seq<seq<byte>>, i: nat, k: nat): Option<nat>
    decreases |insts| - k
  {
    if k >= |insts| then None
    else if MatchesAt(code, i, insts[k]) then Some(k)
    else FirstMatchFrom(code, insts, i, k + 1)
  }

  /**
   * FirstMatch finds the least index whose instruction occurs at `i`, and
   * finds nothing exactly when no instruction occurs there.
   */
  lemma FirstMatchIsLeast(code: seq<byte>, insts: seq<seq<byte>>, i: nat)
    ensures var r := FirstMatch(code, insts, i);
      && (r.Some? ==> r.value < |insts| && MatchesAt(code, i, insts[r.value]))
      && (r.Some? ==> forall j :: 0 <= j < r.value ==> !MatchesAt(code, i, insts[j]))
      && (r.None? <==> forall j :: 0 <= j < |insts| ==> !MatchesAt(code, i, insts[j]))
  {
    FirstMatchFromIsLeast(code, insts, i, 0);
  }

  lemma {:induction false} FirstMatchFromIsLeast(code: seq<byte>, insts: seq<seq<byte>>, i: nat, k: nat)
    ensures var r := FirstMatchFrom(code, insts, i, k);
      && (r.Some? ==> k <= r.value < |insts| && MatchesAt(code, i, insts[r.value]))
      && (r.Some? ==> forall j :: k <= j < r.value ==> !MatchesAt(code, i, insts[j]))
      && (r.None? ==> forall j :: k <= j < |insts| ==> !MatchesAt(code, i, insts[j]))
    decreases |insts| - k
  {
    if k < |insts| && !MatchesAt(code, i, insts[k]) {
      FirstMatchFromIsLeast(code, insts, i, k + 1);
    }
  }

  /**
   * The tokens the scan emits from offset `i` to the end of `code`: the first
   * instruction found at `i`, or nothing when no instruction is found there, in
   * which case one codepoint is skipped (LeadByteLength is what NextCharSize
   * computes). A skip may run past the end of a
   * truncated last codepoint, which ends the scan. Every token covers at least
   * one byte, so there are no more tokens than bytes left.
   */
  function Scan(code: seq<byte>, insts: seq<seq<byte>>, i: nat): (tokens: seq<seq<byte>>)
    requires NoEmptyInstruction(insts)
    ensures tokens == [] || i + |tokens| <= |code|
    decreases |code| - i
  {
    if i >= |code| then []
    else
      match FirstMatch(code, insts, i)
      case Some(k) => [insts[k]] + Scan(code, insts, i + |insts[k]|)
      case None => Scan(code, insts, i + LeadByteLength(code[i]))
  }

  /**
   * Tokenizes `code` against `insts`: at every offset the instructions are
   * tried in table order, the first one found is emitted and skipped, and an
   * offset where none is found is skipped by one codepoint.
   */
  method Tokenize(code: seq<byte>, insts: seq<seq<byte>>) returns (tokens: seq<seq<byte>>)
    requires NoEmptyInstruction(insts)
    ensures tokens == Scan(code, insts, 0)
    ensures forall t :: t in tokens ==> t in insts
  {
    tokens := [];
    var i: nat := 0;
    ghost var all := Scan(code, insts, 0);
    while i < |code|
      invariant tokens + Scan(code, insts, i) == all
      decreases |code| - i
    {
      var found := FindInstruction(code, insts, i);
      match found
      case Some(k) =>
        ScanMatched(code, insts, i, k, tokens);
        tokens := tokens + [insts[k]];
        i := i + |insts[k]|;
      case None =>
        ScanSkipped(code, insts, i);
        var skip := NextCharSize(code, i);
        i := i + skip;
    }
    ScanInTable(code, insts, 0);
  }

  /** The inner loop of the tokenizer: tries each instruction at offset `i` in table order. */
  method FindInstruction(code: seq<byte>, insts: seq<seq<byte>>, i: nat) returns (found: Option<nat>)
    ensures found == FirstMatch(code, insts, i)
  {
    FirstMatchIsLeast(code, insts, i);
    var k := 0;
    while k < |insts|
      invariant 0 <= k <= |insts|
      invariant forall j :: 0 <= j < k ==> !MatchesAt(code, i, insts[j])
    {
      var inst := insts[k];
      if i + |inst| <= |code| && code[i..i + |inst|] == inst {
        return Some(k);
      }
      k := k + 1;
    }
    return None;
  }

  /** Where the first instruction found at `i` is `insts[k]`, the scan emits it and resumes after it. */
  lemma ScanMatched(code: seq<byte>, insts: seq<seq<byte>>, i: nat, k: nat, emitted: seq<seq<byte>>)
    requires NoEmptyInstruction(insts) && i < |code| && FirstMatch(code, insts, i) == Some(k)
    ensures k < |insts|
    ensures emitted + Scan(code, insts, i) == (emitted + [insts[k]]) + Scan(code, insts, i + |insts[k]|)
  {
    ScanEmits(code, insts, i, k);
    var rest := Scan(code, insts, i + |insts[k]|);
    assert emitted + ([insts[k]] + rest) == (emitted + [insts[k]]) + rest;
  }

  /** Where the first instruction found at `i` is `insts[k]`, the scan starts with it. */
  lemma ScanEmits(code: seq<byte>, insts: seq<seq<byte>>, i: nat, k: nat)
    requires NoEmptyInstruction(insts) && i < |code| && FirstMatch(code, insts, i) == Some(k)
    ensures k < |insts|
    ensures Scan(code, insts, i) == [insts[k]] + Scan(code, insts, i + |insts[k]|)
  {
    FirstMatchIsLeast(code, insts, i);
  }

  /** Where no instruction is found at `i < |code|`, the scan emits nothing and skips one codepoint. */
  lemma ScanSkipped(code: seq<byte>, insts: seq<seq<byte>>, i: nat)
    requires NoEmptyInstruction(insts) && i < |code| && FirstMatch(code, insts, i) == None
    ensures Scan(code, insts, i) == Scan(code, insts, i + NextCharSize(code, i))
  {
  }

  /** Every token the scan emits is an instruction of the table. */
  lemma {:induction false} ScanInTable(code: seq<byte>, insts: seq<seq<byte>>, i: nat)
    requires NoEmptyInstruction(insts)
    ensures forall t :: t in Scan(code, insts, i) ==> t in insts
    decreases |code| - i
  {
    if i < |code| {
      FirstMatchIsLeast(code, insts, i);
      match FirstMatch(code, insts, i)
      case Some(k) => ScanInTable(code, insts, i + |insts[k]|);
      case None => ScanInTable(code, insts, i + LeadByteLength(code[i]));
    }
  }

  /** Two instructions found at the same offset agree on their common length. */
  lemma MatchesAgree(code: seq<byte>, i: nat, s: seq<byte>, t: seq<byte>)
    requires MatchesAt(code, i, s) && MatchesAt(code, i, t) && |s| <= |t|
    ensures s <= t
  {
    assert s == t[..|s|] by {
      forall j | 0 <= j < |s| ensures s[j] == t[..|s|][j] {
        assert s[j] == code[i + j] == t[j];
      }
    }
  }

  /**
   * With a table sorted by decreasing length, the instruction emitted at an
   * offset is at least as long as every instruction found there; so where an
   * instruction is a strict prefix of a longer one found at the same offset,
   * the longer one is emitted.
   */
  lemma LongestMatchWins(code: seq<byte>, insts: seq<seq<byte>>, i: nat, j: nat)
    requires NonIncreasingLength(insts) && j < |insts| && MatchesAt(code, i, insts[j])
    ensures var r := FirstMatch(code, insts, i); r.Some? && r.value < |insts| && |insts[r.value]| >= |insts[j]|
    ensures forall a :: 0 <= a < |insts| && insts[a] < insts[j] ==> FirstMatch(code, insts, i) != Some(a)
  {
    FirstMatchIsLeast(code, insts, i);
  }

  /**
   * In a prefix-free table, the instruction found at an offset is the only
   * instruction text found there, whatever the order of the table.
   */
  lemma PrefixFreeMatchIsUnique(code: seq<byte>, insts: seq<seq<byte>>, i: nat, j: nat)
    requires PrefixFree(insts) && j < |insts| && MatchesAt(code, i, insts[j])
    ensures var r := FirstMatch(code, insts, i); r.Some? && r.value < |insts| && insts[r.value] == insts[j]
  {
    FirstMatchIsLeast(code, insts, i);
    var k := FirstMatch(code, insts, i).value;
    if |insts[k]| <= |insts[j]| {
      MatchesAgree(code, i, insts[k], insts[j]);
    } else {
      MatchesAgree(code, i, insts[j], insts[k]);
    }
  }

  /** Two tables holding the same instructions. */
  ghost predicate SameInstructions(a: seq<seq<byte>>, b: seq<seq<byte>>)
  {
    forall t :: t in a <==> t in b
  }

  /** A table holding the same instructions as a prefix-free table is prefix-free. */
  lemma PrefixFreeShared(a: seq<seq<byte>>, b: seq<seq<byte>>)
    requires PrefixFree(a) && SameInstructions(a, b)
    ensures PrefixFree(b)
  {
    forall x, y | 0 <= x < |b| && 0 <= y < |b| && b[x] <= b[y] ensures b[x] == b[y] {
      assert b[x] in b && b[y] in b;
      var x', y' :| 0 <= x' < |a| && a[x'] == b[x] && 0 <= y' < |a| && a[y'] == b[y];
    }
  }

  /** Two prefix-free tables with the same instructions find the same instruction text at every offset. */
  lemma SameFirstMatch(code: seq<byte>, a: seq<seq<byte>>, b: seq<seq<byte>>, i: nat)
    requires PrefixFree(a) && SameInstructions(a, b)
    ensures FirstMatch(code, a, i).None? <==> FirstMatch(code, b, i).None?
    ensures FirstMatch(code, a, i).Some? ==>
      FirstMatch(code, a, i).value < |a| && FirstMatch(code, b, i).value < |b| &&
      a[FirstMatch(code, a, i).value] == b[FirstMatch(code, b, i).value]
  {
    FirstMatchIsLeast(code, a, i);
    FirstMatchIsLeast(code, b, i);
    PrefixFreeShared(a, b);
    match FirstMatch(code, a, i)
    case Some(k) =>
      assert a[k] in a;
      var j :| 0 <= j < |b| && b[j] == a[k];
      PrefixFreeMatchIsUnique(code, a, i, k);
      PrefixFreeMatchIsUnique(code, b, i, j);
    case None =>
      forall j | 0 <= j < |b| ensures !MatchesAt(code, i, b[j]) {
        assert b[j] in b;
        var x :| 0 <= x < |a| && a[x] == b[j];
      }
  }

  /**
   * A prefix-free table tokenizes every text the same way in any order, so the
   * order the sort leaves among instructions of equal length does not matter.
   */
  lemma {:induction false} ScanIgnoresTableOrder(code: seq<byte>, a: seq<seq<byte>>, b: seq<seq<byte>>, i: nat)
    requires NoEmptyInstruction(a) && NoEmptyInstruction(b)
    requires PrefixFree(a) && SameInstructions(a, b)
    ensures Scan(code, a, i) == Scan(code, b, i)
    decreases |code| - i
  {
    if i < |code| {
      SameFirstMatch(code, a, b, i);
      if FirstMatch(code, a, i).Some? {
        ScanIgnoresTableOrder(code, a, b, i + |a[FirstMatch(code, a, i).value]|);
        ScanBothEmit(code, a, b, i);
      } else {
        ScanIgnoresTableOrder(code, a, b, i + NextCharSize(code, i));
        ScanSkipped(code, a, i);
        ScanSkipped(code, b, i);
      }
    }
  }

  /** Two tables that find the same text at `i` scan alike from `i` when they scan alike after it. */
  lemma ScanBothEmit(code: seq<byte>, a: seq<seq<byte>>, b: seq<seq<byte>>, i: nat)
    requires NoEmptyInstruction(a) && NoEmptyInstruction(b) && i < |code|
    requires FirstMatch(code, a, i).Some? && FirstMatch(code, b, i).Some?
    requires a[FirstMatch(code, a, i).value] == b[FirstMatch(code, b, i).value]
    requires var t := a[FirstMatch(code, a, i).value];
      Scan(code, a, i + |t|) == Scan(code, b, i + |t|)
    ensures Scan(code, a, i) == Scan(code, b, i)
  {
    ScanEmits(code, a, i, FirstMatch(code, a, i).value);
    ScanEmits(code, b, i, FirstMatch(code, b, i).value);
  }

  /**
   * Sorting a prefix-free table does not change how any text is tokenized; in
   * particular the sorted instruction table tokenizes like the declared one.
   */
  lemma SortedScan(code: seq<byte>, insts: seq<seq<byte>>)
    requires NoEmptyInstruction(insts) && PrefixFree(insts)
    ensures NoEmptyInstruction(SortByLength(insts))
    ensures Scan(code, SortByLength(insts), 0) == Scan(code, insts, 0)
  {
    var sorted := SortByLength(insts);
    assert SameInstructions(insts, sorted) by {
      forall t ensures t in insts <==> t in sorted {
        assert t in sorted <==> t in multiset(sorted);
        assert t in insts <==> t in multiset(insts);
      }
    }
    assert NoEmptyInstruction(sorted) by {
      forall k | 0 <= k < |sorted| ensures |sorted[k]| > 0 {
        assert sorted[k] in insts;
      }
    }
    ScanIgnoresTableOrder(code, insts, sorted, 0);
  }

  /** The bytes of a token list written one after another. */
  function Concat(ts: seq<seq<byte>>): seq<byte>
  {
    if ts == [] then [] else ts[0] + Concat(ts[1..])
  }

  /** The bytes from token `k` on are token `k` followed by the bytes from token `k + 1` on. */
  lemma ConcatFrom(ts: seq<seq<byte>>, k: nat)
    requires k < |ts|
    ensures Concat(ts[k..]) == ts[k] + Concat(ts[k + 1..])
  {
    assert ts[k..][1..] == ts[k + 1..];
  }

  /** Where the bytes from `i` on are `t` followed by `rest`, `t` occurs at `i` and `rest` follows it. */
  lemma MatchesHead(code: seq<byte>, i: nat, t: seq<byte>, rest: seq<byte>)
    requires i <= |code| && code[i..] == t + rest
    ensures MatchesAt(code, i, t) && code[i + |t|..] == rest
  {
    forall j | 0 <= j < |t| ensures code[i + j] == t[j] {
      assert code[i + j] == code[i..][j];
    }
    assert code[i + |t|..] == code[i..][|t|..];
  }

  /** An instruction of a prefix-free table that occurs at `i` is emitted there, and the scan resumes after it. */
  lemma ScanHead(code: seq<byte>, i: nat, t: seq<byte>, insts: seq<seq<byte>>)
    requires NoEmptyInstruction(insts) && PrefixFree(insts) && t in insts && MatchesAt(code, i, t)
    ensures Scan(code, insts, i) == [t] + Scan(code, insts, i + |t|)
  {
    var j :| 0 <= j < |insts| && insts[j] == t;
    PrefixFreeMatchIsUnique(code, insts, i, j);
    var m := FirstMatch(code, insts, i).value;
    ScanEmits(code, insts, i, m);
  }

  /** The bytes of `code` from offset `i` on are exactly the instructions `ts`, one after another. */
  ghost predicate Spells(code: seq<byte>, i: nat, ts: seq<seq<byte>>)
    decreases |ts|
  {
    if ts == [] then i == |code|
    else MatchesAt(code, i, ts[0]) && Spells(code, i + |ts[0]|, ts[1..])
  }

  /** Where the bytes from `i` on are the concatenation of `ts`, they spell `ts`. */
  lemma {:induction false} ConcatSpells(code: seq<byte>, i: nat, ts: seq<seq<byte>>)
    requires i <= |code| && code[i..] == Concat(ts)
    ensures Spells(code, i, ts)
    decreases |ts|
  {
    if ts == [] {
      assert |code[i..]| == 0;
    } else {
      MatchesHead(code, i, ts[0], Concat(ts[1..]));
      ConcatSpells(code, i + |ts[0]|, ts[1..]);
    }
  }

  /**
   * A text written only in instructions of a prefix-free table tokenizes back
   * to exactly those instructions, from every offset where they begin.
   */
  lemma {:induction false} ScanOfInstructions(code: seq<byte>, i: nat, ts: seq<seq<byte>>, insts: seq<seq<byte>>)
    requires NoEmptyInstruction(insts) && PrefixFree(insts)
    requires forall k :: 0 <= k < |ts| ==> ts[k] in insts
    requires Spells(code, i, ts)
    ensures Scan(code, insts, i) == ts
    decreases |ts|
  {
    if ts != [] {
      var t, rest := ts[0], ts[1..];
      ScanOfInstructions(code, i + |t|, rest, insts);
      ScanHead(code, i, t, insts);
      assert ts == [t] + rest;
    }
  }
}
