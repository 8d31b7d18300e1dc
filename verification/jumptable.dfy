/**
 * The jump table: pairs every loop-open token (ありが) with its loop-close
 * token (おわり) by a single pass with a stack, and fails on an imbalance.
 */
module JumpTable {
  import opened Wrappers
  import opened Utf8
  import opened Instructions

  /** The two ways the loop tokens of a program can fail to pair up. */
  datatype JumpError =
    | UnmatchedLoopClose  // an おわり with no open ありが before it
    | UnmatchedLoopOpen   // an ありが never closed

  predicate IsLoopToken(t: seq<byte>)
  {
    t == ArigaText || t == OwariText
  }

  /** How a token changes the loop nesting depth. */
  function Delta(t: seq<byte>): int
  {
    if t == ArigaText then 1 else if t == OwariText then -1 else 0
  }

  /** The change of nesting depth over `tokens[a..b]`: opens minus closes. */
  function Depth(tokens: seq<seq<byte>>, a: nat, b: nat): int
    requires a <= b <= |tokens|
    decreases b
  {
    if a == b then 0 else Depth(tokens, a, b - 1) + Delta(tokens[b - 1])
  }

  /** `tokens[a..b]` closes every loop it opens and never closes one it did not open. */
  ghost predicate Balanced(tokens: seq<seq<byte>>, a: nat, b: nat)
    requires a <= b <= |tokens|
  {
    Depth(tokens, a, b) == 0 && forall m :: a <= m <= b ==> Depth(tokens, a, m) >= 0
  }

  /** Some prefix of the tokens closes more loops than it opens. */
  ghost predicate CloseUnderflows(tokens: seq<seq<byte>>)
  {
    exists m :: 0 <= m <= |tokens| && Depth(tokens, 0, m) < 0
  }

  /**
   * What the jump table promises: its keys are exactly the positions of the
   * loop tokens; each ありが maps to a later おわり with balanced tokens in
   * between, each おわり to an earlier ありが, and the mapping is its own inverse.
   */
  ghost predicate JumpTableOk(tokens: seq<seq<byte>>, jump: map<nat, nat>)
  {
    && (forall i: nat :: i in jump <==> i < |tokens| && IsLoopToken(tokens[i]))
    && (forall i :: i in jump ==> jump[i] in jump && jump[jump[i]] == i)
    && (forall i :: i in jump && tokens[i] == ArigaText ==>
          i < jump[i] && tokens[jump[i]] == OwariText && Balanced(tokens, i + 1, jump[i]))
    && (forall i :: i in jump && tokens[i] == OwariText ==>
          jump[i] < i && tokens[jump[i]] == ArigaText)
  }

  /**
   * Builds the jump table in one pass, keeping the positions of the loops
   * still open on a stack (its top is the last element of `st`).
   */
  method BuildJumpTable(tokens: seq<seq<byte>>) returns (r: Result<map<nat, nat>, JumpError>)
    ensures r.Success? <==> Balanced(tokens, 0, |tokens|)
    ensures r == Failure(UnmatchedLoopClose) <==> CloseUnderflows(tokens)
    ensures r == Failure(UnmatchedLoopOpen) <==>
      !CloseUnderflows(tokens) && Depth(tokens, 0, |tokens|) > 0
    ensures r.Success? ==> JumpTableOk(tokens, r.value)
  {
    var jump: map<nat, nat> := map[];
    var st: seq<nat> := [];
    var i := 0;
    while i < |tokens|
      invariant i <= |tokens| && PassInvariant(tokens, i, st, jump)
    {
      var ok;
      ok, st, jump := PassStep(tokens, i, st, jump);
      if !ok {
        return Failure(UnmatchedLoopClose);
      }
      i := i + 1;
    }
    PassOutcome(tokens, st, jump);
    if st != [] {
      return Failure(UnmatchedLoopOpen);
    }
    return Success(jump);
  }

  /**
   * Reads `tokens[i]`: an ありが pushes its position, an おわり pops the innermost
   * open loop and pairs the two in the table, or fails when no loop is open;
   * every other token changes nothing.
   */
  method PassStep(tokens: seq<seq<byte>>, i: nat, st: seq<nat>, jump: map<nat, nat>)
    returns (ok: bool, st': seq<nat>, jump': map<nat, nat>)
    requires i < |tokens| && PassInvariant(tokens, i, st, jump)
    ensures ok <==> !(tokens[i] == OwariText && st == [])
    ensures ok ==> PassInvariant(tokens, i + 1, st', jump')
    ensures !ok ==> CloseUnderflows(tokens) && !Balanced(tokens, 0, |tokens|)
  {
    ok, st', jump' := true, st, jump;
    if tokens[i] == ArigaText {
      PushKeepsInvariant(tokens, i, st, jump);
      st' := st + [i];
    } else if tokens[i] == OwariText {
      if st == [] {
        UnderflowFails(tokens, i);
        ok := false;
      } else {
        var j := st[|st| - 1];
        PopKeepsInvariant(tokens, i, st, jump);
        st', jump' := st[..|st| - 1], jump[j := i][i := j];
      }
    } else {
      OtherKeepsInvariant(tokens, i, st, jump);
    }
  }

  /** What holds after the pass has read `tokens[..i]`. */
  ghost predicate PassInvariant(tokens: seq<seq<byte>>, i: nat, st: seq<nat>, jump: map<nat, nat>)
    requires i <= |tokens|
  {
    StackInvariant(tokens, i, st) && TableKeys(tokens, i, st, jump) && TablePaired(tokens, i, jump)
  }

  /**
   * What holds of the stack after the pass has read `tokens[..i]`: it holds, in
   * increasing order, the positions of the loops still open, one per level of
   * nesting, and no prefix read so far closed more loops than it opened.
   */
  ghost predicate StackInvariant(tokens: seq<seq<byte>>, i: nat, st: seq<nat>)
    requires i <= |tokens|
  {
    && |st| == Depth(tokens, 0, i)
    && (forall m :: 0 <= m <= i ==> Depth(tokens, 0, m) >= 0)
    && (forall p :: 0 <= p < |st| ==> st[p] < i && tokens[st[p]] == ArigaText)
    && (forall p, q :: 0 <= p < q < |st| ==> st[p] < st[q])
    && (forall p :: 0 <= p < |st| ==> OpenAt(tokens, st[p] + 1, i, |st| - 1 - p))
  }

  /**
   * The loop opened just before `s` is still open at `i`: the tokens from `s`
   * reach nesting depth `d` at `i` and never go below zero on the way.
   */
  ghost predicate OpenAt(tokens: seq<seq<byte>>, s: nat, i: nat, d: int)
    requires s <= i <= |tokens|
  {
    Depth(tokens, s, i) == d && forall m :: s <= m <= i ==> Depth(tokens, s, m) >= 0
  }

  /** The table holds exactly the loop tokens of `tokens[..i]` that are not on the stack. */
  ghost predicate TableKeys(tokens: seq<seq<byte>>, i: nat, st: seq<nat>, jump: map<nat, nat>)
    requires i <= |tokens|
  {
    forall x: nat :: x in jump <==> x < i && IsLoopToken(tokens[x]) && x !in st
  }

  /** The table pairs positions before `i` as JumpTableOk requires. */
  ghost predicate TablePaired(tokens: seq<seq<byte>>, i: nat, jump: map<nat, nat>)
    requires i <= |tokens|
  {
    && (forall x :: x in jump ==> x < i && jump[x] < i && jump[x] in jump && jump[jump[x]] == x)
    && (forall x :: x in jump && tokens[x] == ArigaText ==>
          x < jump[x] && tokens[jump[x]] == OwariText && Balanced(tokens, x + 1, jump[x]))
    && (forall x :: x in jump && tokens[x] == OwariText ==>
          jump[x] < x && tokens[jump[x]] == ArigaText)
  }

  /** Reading an ありが pushes its position. */
  lemma PushKeepsInvariant(tokens: seq<seq<byte>>, i: nat, st: seq<nat>, jump: map<nat, nat>)
    requires i < |tokens| && tokens[i] == ArigaText && PassInvariant(tokens, i, st, jump)
    ensures PassInvariant(tokens, i + 1, st + [i], jump)
  {
    PushKeepsStack(tokens, i, st);
    forall x: nat ensures x in jump <==> x < i + 1 && IsLoopToken(tokens[x]) && x !in st + [i] {
      assert x in st + [i] <==> x in st || x == i;
    }
    PairedGrows(tokens, i, jump);
  }

  lemma PushKeepsStack(tokens: seq<seq<byte>>, i: nat, st: seq<nat>)
    requires i < |tokens| && tokens[i] == ArigaText && StackInvariant(tokens, i, st)
    ensures StackInvariant(tokens, i + 1, st + [i])
  {
    var st' := st + [i];
    forall p | 0 <= p < |st'| ensures OpenAt(tokens, st'[p] + 1, i + 1, |st'| - 1 - p) {
      if p < |st| {
        assert OpenAt(tokens, st[p] + 1, i, |st| - 1 - p);
      }
    }
  }

  /** Reading an おわり while a loop is open pops the innermost one and pairs it with the おわり. */
  lemma PopKeepsInvariant(tokens: seq<seq<byte>>, i: nat, st: seq<nat>, jump: map<nat, nat>)
    requires i < |tokens| && tokens[i] == OwariText && st != [] && PassInvariant(tokens, i, st, jump)
    ensures var j := st[|st| - 1];
      PassInvariant(tokens, i + 1, st[..|st| - 1], jump[j := i][i := j])
  {
    var j := st[|st| - 1];
    PopKeepsStack(tokens, i, st);
    assert j < i && tokens[j] == ArigaText;
    PopKeepsKeys(tokens, i, st, jump);
    PopKeepsPaired(tokens, i, j, jump);
  }

  lemma PopKeepsStack(tokens: seq<seq<byte>>, i: nat, st: seq<nat>)
    requires i < |tokens| && tokens[i] == OwariText && StackInvariant(tokens, i, st) && st != []
    ensures StackInvariant(tokens, i + 1, st[..|st| - 1])
    ensures Balanced(tokens, st[|st| - 1] + 1, i)
  {
    var st' := st[..|st| - 1];
    assert OpenAt(tokens, st[|st| - 1] + 1, i, 0);
    forall p | 0 <= p < |st'| ensures OpenAt(tokens, st'[p] + 1, i + 1, |st'| - 1 - p) {
      assert OpenAt(tokens, st[p] + 1, i, |st| - 1 - p);
    }
  }

  lemma PopKeepsKeys(tokens: seq<seq<byte>>, i: nat, st: seq<nat>, jump: map<nat, nat>)
    requires i < |tokens| && tokens[i] == OwariText && st != [] && TableKeys(tokens, i, st, jump)
    requires forall p :: 0 <= p < |st| ==> st[p] < i && tokens[st[p]] == ArigaText
    requires forall p, q :: 0 <= p < q < |st| ==> st[p] < st[q]
    ensures var j := st[|st| - 1];
      TableKeys(tokens, i + 1, st[..|st| - 1], jump[j := i][i := j])
  {
    var j := st[|st| - 1];
    var st' := st[..|st| - 1];
    var jump' := jump[j := i][i := j];
    assert st == st' + [j];
    forall x: nat ensures x in jump' <==> x < i + 1 && IsLoopToken(tokens[x]) && x !in st' {
      if x == j {
        assert x !in st' by {
          forall p | 0 <= p < |st'| ensures st'[p] != j {
            assert st[p] < st[|st| - 1];
          }
        }
      } else if x != i {
        assert x in st <==> x in st';
      }
    }
  }

  lemma PopKeepsPaired(tokens: seq<seq<byte>>, i: nat, j: nat, jump: map<nat, nat>)
    requires i < |tokens| && tokens[i] == OwariText && j < i && tokens[j] == ArigaText
    requires i !in jump && j !in jump && TablePaired(tokens, i, jump)
    requires Balanced(tokens, j + 1, i)
    ensures TablePaired(tokens, i + 1, jump[j := i][i := j])
  {
  }

  /** The pairs already in the table stay valid as the pass reads on. */
  lemma PairedGrows(tokens: seq<seq<byte>>, i: nat, jump: map<nat, nat>)
    requires i < |tokens| && TablePaired(tokens, i, jump)
    ensures TablePaired(tokens, i + 1, jump)
  {
  }

  /** Any other token leaves the stack and the table as they are. */
  lemma OtherKeepsInvariant(tokens: seq<seq<byte>>, i: nat, st: seq<nat>, jump: map<nat, nat>)
    requires i < |tokens| && !IsLoopToken(tokens[i]) && PassInvariant(tokens, i, st, jump)
    ensures PassInvariant(tokens, i + 1, st, jump)
  {
    forall p | 0 <= p < |st| ensures OpenAt(tokens, st[p] + 1, i + 1, |st| - 1 - p) {
      assert OpenAt(tokens, st[p] + 1, i, |st| - 1 - p);
    }
    PairedGrows(tokens, i, jump);
  }

  /** An おわり read with no loop open makes the prefix up to it close more than it opens. */
  lemma UnderflowFails(tokens: seq<seq<byte>>, i: nat)
    requires i < |tokens| && tokens[i] == OwariText && StackInvariant(tokens, i, [])
    ensures CloseUnderflows(tokens) && !Balanced(tokens, 0, |tokens|)
  {
    assert Depth(tokens, 0, i + 1) < 0;
  }

  /** When the pass reaches the end, the stack decides between success and an unclosed loop. */
  lemma PassOutcome(tokens: seq<seq<byte>>, st: seq<nat>, jump: map<nat, nat>)
    requires PassInvariant(tokens, |tokens|, st, jump)
    ensures !CloseUnderflows(tokens)
    ensures st == [] <==> Balanced(tokens, 0, |tokens|)
    ensures st != [] <==> Depth(tokens, 0, |tokens|) > 0
    ensures st == [] ==> JumpTableOk(tokens, jump)
  {
  }

  /** A balanced stretch after an ありが can end at only one おわり. */
  lemma CloseIsUnique(tokens: seq<seq<byte>>, o: nat, c1: nat, c2: nat)
    requires o < c1 < |tokens| && o < c2 < |tokens|
    requires tokens[c1] == OwariText && tokens[c2] == OwariText
    requires Balanced(tokens, o + 1, c1) && Balanced(tokens, o + 1, c2)
    ensures c1 == c2
  {
    if c1 < c2 {
      assert Depth(tokens, o + 1, c1 + 1) < 0;
    } else if c2 < c1 {
      assert Depth(tokens, o + 1, c2 + 1) < 0;
    }
  }

  /** The tokens determine the jump table: two tables that both pair them correctly are equal. */
  lemma JumpTableIsUnique(tokens: seq<seq<byte>>, jump1: map<nat, nat>, jump2: map<nat, nat>)
    requires JumpTableOk(tokens, jump1) && JumpTableOk(tokens, jump2)
    ensures jump1 == jump2
  {
    forall x | x in jump1 ensures x in jump2 && jump1[x] == jump2[x] {
      PartnerIsUnique(tokens, jump1, jump2, x);
    }
    assert jump1.Keys == jump2.Keys;
  }

  lemma PartnerIsUnique(tokens: seq<seq<byte>>, jump1: map<nat, nat>, jump2: map<nat, nat>, x: nat)
    requires JumpTableOk(tokens, jump1) && JumpTableOk(tokens, jump2) && x in jump1
    ensures x in jump2 && jump1[x] == jump2[x]
  {
    assert x < |tokens| && IsLoopToken(tokens[x]);
    assert x in jump2;
    if tokens[x] == ArigaText {
      OpenPartner(tokens, jump1, x);
      OpenPartner(tokens, jump2, x);
      CloseIsUnique(tokens, x, jump1[x], jump2[x]);
    } else {
      var o := jump2[x];
      assert o < x && tokens[o] == ArigaText && o in jump2 && jump2[o] == x;
      OpenPartner(tokens, jump2, o);
      assert o in jump1;
      OpenPartner(tokens, jump1, o);
      CloseIsUnique(tokens, o, jump1[o], x);
    }
  }

  lemma OpenPartner(tokens: seq<seq<byte>>, jump: map<nat, nat>, o: nat)
    requires JumpTableOk(tokens, jump) && o in jump && tokens[o] == ArigaText
    ensures o < jump[o] < |tokens| && tokens[jump[o]] == OwariText
    ensures Balanced(tokens, o + 1, jump[o]) && jump[o] in jump && jump[jump[o]] == o
  {
  }

  /** A lone おわり closes a loop that was never opened. */
  lemma LoneCloseUnderflows()
    ensures CloseUnderflows([OwariText])
  {
    assert Depth([OwariText], 0, 1) < 0;
  }

  /** A lone ありが opens a loop that is never closed. */
  lemma LoneOpenUnclosed()
    ensures !CloseUnderflows([ArigaText]) && Depth([ArigaText], 0, 1) > 0
  {
    assert Depth([ArigaText], 0, 1) == 1;
  }
}
