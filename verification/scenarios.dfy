/**
 * What three small programs write when interpreted from their source text:
 * the tokens each text yields, their jump tables, and their runs from a zeroed
 * tape.
 */
module Scenarios {
  import opened Wrappers
  import opened Utf8
  import opened Instructions
  import opened Tokenizer
  import opened JumpTable
  import opened Machine
  import opened Interpreter

  /** とうとうとうSyB: three increments, then the cell is written. */
  const ThreeUpCode: seq<byte> := TouText + TouText + TouText + SyBText
  const ThreeUpTokens: seq<seq<byte>> := [TouText, TouText, TouText, SyBText]
  const ThreeUp: Program := [Some(Increment), Some(Increment), Some(Increment), Some(Output)]

  /** #5585172SyB: a read, then the cell is written. */
  const ReadCode: seq<byte> := ReadText + SyBText
  const ReadTokens: seq<seq<byte>> := [ReadText, SyBText]
  const ReadThenWrite: Program := [Some(Input), Some(Output)]

  /** とうとうとうありが神ではないおわりSyB: the cell is set to 3, counted down to 0, and written. */
  const CountdownCode: seq<byte> :=
    TouText + TouText + TouText + ArigaText + KamiDeWaNaiText + OwariText + SyBText
  const CountdownTokens: seq<seq<byte>> :=
    [TouText, TouText, TouText, ArigaText, KamiDeWaNaiText, OwariText, SyBText]
  const Countdown: Program :=
    [Some(Increment), Some(Increment), Some(Increment), Some(LoopOpen), Some(Decrement), Some(LoopClose), Some(Output)]
  const CountdownJump: map<nat, nat> := map[3 := 5, 5 := 3]

  /** とうとうとうSyB tokenizes to its four instructions. */
  lemma ThreeUpTokenizes()
    ensures Tokens(ThreeUpCode) == ThreeUpTokens
  {
    var ts := ThreeUpTokens;
    assert Concat(ts[4..]) == [];
    ConcatFrom(ts, 3); ConcatFrom(ts, 2); ConcatFrom(ts, 1); ConcatFrom(ts, 0);
    assert ts[0..] == ts;
    assert Concat(ts) == ThreeUpCode;
    TokensOfInstructions(ts);
  }

  /** #5585172SyB tokenizes to its two instructions. */
  lemma ReadTokenizes()
    ensures Tokens(ReadCode) == ReadTokens
  {
    var ts := ReadTokens;
    assert Concat(ts[2..]) == [];
    ConcatFrom(ts, 1); ConcatFrom(ts, 0);
    assert ts[0..] == ts;
    assert Concat(ts) == ReadCode;
    TokensOfInstructions(ts);
  }

  /** The countdown's text tokenizes to its seven instructions. */
  lemma CountdownTokenizes()
    ensures Tokens(CountdownCode) == CountdownTokens
  {
    var ts := CountdownTokens;
    assert Concat(ts[7..]) == [];
    ConcatFrom(ts, 6); ConcatFrom(ts, 5); ConcatFrom(ts, 4); ConcatFrom(ts, 3);
    ConcatFrom(ts, 2); ConcatFrom(ts, 1); ConcatFrom(ts, 0);
    assert ts[0..] == ts;
    assert Concat(ts) == CountdownCode;
    TokensOfInstructions(ts);
  }

  /** A token list without loop tokens has the empty jump table. */
  lemma NoLoopsEmptyTable(tokens: seq<seq<byte>>)
    requires forall i :: 0 <= i < |tokens| ==> !IsLoopToken(tokens[i])
    ensures JumpTableOk(tokens, map[])
  {
  }

  /** A token list without loop tokens is balanced: its depth stays 0. */
  lemma {:induction false} NoLoopsDepth(tokens: seq<seq<byte>>, m: nat)
    requires forall i :: 0 <= i < |tokens| ==> !IsLoopToken(tokens[i])
    requires m <= |tokens|
    ensures Depth(tokens, 0, m) == 0
  {
    if m > 0 {
      NoLoopsDepth(tokens, m - 1);
    }
  }

  lemma NoLoopsBalanced(tokens: seq<seq<byte>>)
    requires forall i :: 0 <= i < |tokens| ==> !IsLoopToken(tokens[i])
    ensures Balanced(tokens, 0, |tokens|)
  {
    forall m | 0 <= m <= |tokens| ensures Depth(tokens, 0, m) == 0 {
      NoLoopsDepth(tokens, m);
    }
  }

  /** Interpreting the text とうとうとうSyB with no input and 4 steps of fuel writes 3 and reaches the end. */
  method InterpretThreeUp() returns (r: Result<Outcome, JumpError>)
    ensures r == Success(Outcome([3], true))
  {
    r := Interpret(ThreeUpCode, [], 4);
    ThreeUpTokenizes();
    ThreeUpWritesThree();
    NoLoopsBalanced(ThreeUpTokens);
  }

  /** Interpreting the text #5585172SyB with no input writes 0 and reaches the end. */
  method InterpretReadAtEnd() returns (r: Result<Outcome, JumpError>)
    ensures r == Success(Outcome([0], true))
  {
    r := Interpret(ReadCode, [], 2);
    ReadTokenizes();
    ReadAtEndWritesZero();
    NoLoopsBalanced(ReadTokens);
  }

  /** Interpreting the countdown's text with 13 steps of fuel writes 0 and reaches the end. */
  method InterpretCountdown() returns (r: Result<Outcome, JumpError>)
    ensures r == Success(Outcome([0], true))
  {
    r := Interpret(CountdownCode, [], 13);
    CountdownTokenizes();
    CountdownWritesZero();
    CountdownBalanced();
  }

  /** The countdown's depth is 0, 0, 0, 0, 1, 1, 0, 0 after each prefix. */
  lemma CountdownBalanced()
    ensures Balanced(CountdownTokens, 0, |CountdownTokens|)
  {
    assert Depth(CountdownTokens, 0, 3) == 0;
    assert Depth(CountdownTokens, 0, 5) == 1;
    assert Depth(CountdownTokens, 0, 7) == 0;
  }

  /** とうとうとうSyB writes the byte 3 and ends. */
  lemma ThreeUpWritesThree()
    ensures JumpTableOk(ThreeUpTokens, map[])
    ensures Behaviour(ThreeUpTokens, map[], [], 4) == Outcome([3], true)
  {
    NoLoopsEmptyTable(ThreeUpTokens);
    forall i | 0 <= i < 4 ensures Decode(ThreeUpTokens)[i] == ThreeUp[i] {
      DecodeAt(ThreeUpTokens, i);
    }
    ThreeUpRun();
  }

  lemma ThreeUpRun()
    ensures JumpsInRange(ThreeUp, map[])
    ensures var t := Run(ThreeUp, map[], Init([]), 4); t.output == [3] && t.ip == 4
  {
    var s0 := Init([]);
    var s1 := Step(ThreeUp, map[], s0);
    var s2 := Step(ThreeUp, map[], s1);
    var s3 := Step(ThreeUp, map[], s2);
    var s4 := Step(ThreeUp, map[], s3);
    assert s3.tape[0] == 3;
    assert Run(ThreeUp, map[], s4, 0) == s4;
  }

  /** #5585172SyB on an empty input reads 0 and writes it. */
  lemma ReadAtEndWritesZero()
    ensures JumpTableOk(ReadTokens, map[])
    ensures Behaviour(ReadTokens, map[], [], 2) == Outcome([0], true)
  {
    NoLoopsEmptyTable(ReadTokens);
    forall i | 0 <= i < 2 ensures Decode(ReadTokens)[i] == ReadThenWrite[i] {
      DecodeAt(ReadTokens, i);
    }
    var s1 := Step(ReadThenWrite, map[], Init([]));
    var s2 := Step(ReadThenWrite, map[], s1);
    assert Run(ReadThenWrite, map[], s2, 0) == s2;
  }

  /** The countdown pairs its ありが at 3 with its おわり at 5. */
  lemma CountdownJumpTable()
    ensures JumpTableOk(CountdownTokens, CountdownJump)
  {
    CountdownJumpKeys();
    CountdownJumpPairs();
  }

  lemma CountdownJumpKeys()
    ensures forall i: nat :: i in CountdownJump <==> i < |CountdownTokens| && IsLoopToken(CountdownTokens[i])
  {
    forall i: nat ensures i in CountdownJump <==> i < |CountdownTokens| && IsLoopToken(CountdownTokens[i]) {
      if i < |CountdownTokens| && i != 3 && i != 5 {
        assert CountdownTokens[i] in {TouText, KamiDeWaNaiText, SyBText};
      }
    }
  }

  lemma CountdownJumpPairs()
    ensures forall i :: i in CountdownJump ==> CountdownJump[i] in CountdownJump && CountdownJump[CountdownJump[i]] == i
    ensures forall i :: i in CountdownJump && CountdownTokens[i] == ArigaText ==>
      i < CountdownJump[i] && CountdownTokens[CountdownJump[i]] == OwariText && Balanced(CountdownTokens, i + 1, CountdownJump[i])
    ensures forall i :: i in CountdownJump && CountdownTokens[i] == OwariText ==>
      CountdownJump[i] < i && CountdownTokens[CountdownJump[i]] == ArigaText
  {
    assert Depth(CountdownTokens, 4, 4) == 0;
    assert Depth(CountdownTokens, 4, 5) == 0;
    assert CountdownJump.Keys == {3, 5};
  }

  /** The countdown writes the byte 0 and ends, after 13 steps. */
  lemma CountdownWritesZero()
    ensures JumpTableOk(CountdownTokens, CountdownJump)
    ensures Behaviour(CountdownTokens, CountdownJump, [], 13) == Outcome([0], true)
  {
    CountdownJumpTable();
    CountdownDecodes();
    CountdownRun();
  }

  lemma CountdownDecodes()
    ensures Decode(CountdownTokens) == Countdown
  {
    forall i | 0 <= i < 7 ensures Decode(CountdownTokens)[i] == Countdown[i] {
      DecodeAt(CountdownTokens, i);
    }
  }

  lemma CountdownRun()
    ensures JumpsInRange(Countdown, CountdownJump)
    ensures var t := Run(Countdown, CountdownJump, Init([]), 13); t.output == [0] && t.ip == 7
  {
    var s0 := Init([]);
    CountdownStart();
    var s3 := Run(Countdown, CountdownJump, s0, 3);
    CountdownRound(s3);
    var s6 := Run(Countdown, CountdownJump, s3, 3);
    CountdownRound(s6);
    var s9 := Run(Countdown, CountdownJump, s6, 3);
    CountdownRound(s9);
    var s12 := Run(Countdown, CountdownJump, s9, 3);
    assert s12.ip == 6 && s12.ptr == 0 && s12.tape[0] == 0 && s12.output == [];
    CountdownFinish(s12);
    RunAdditive(Countdown, CountdownJump, s0, 3, 3);
    RunAdditive(Countdown, CountdownJump, s0, 6, 3);
    RunAdditive(Countdown, CountdownJump, s0, 9, 3);
    RunAdditive(Countdown, CountdownJump, s0, 12, 1);
  }

  /** The three とう set cell 0 to 3 and reach the ありが. */
  lemma CountdownStart()
    ensures JumpsInRange(Countdown, CountdownJump)
    ensures var t := Run(Countdown, CountdownJump, Init([]), 3);
      t.ip == 3 && t.ptr == 0 && t.tape == Init([]).tape[0 := 3] && t.output == []
  {
    var s0 := Init([]);
    var s1 := Step(Countdown, CountdownJump, s0);
    assert s1 == s0.(ip := 1, tape := s0.tape[0 := 1]);
    var s2 := Step(Countdown, CountdownJump, s1);
    assert s2 == s0.(ip := 2, tape := s0.tape[0 := 2]);
    var s3 := Step(Countdown, CountdownJump, s2);
    assert s3 == s0.(ip := 3, tape := s0.tape[0 := 3]);
    assert Run(Countdown, CountdownJump, s0, 3) == Run(Countdown, CountdownJump, s1, 2);
    assert Run(Countdown, CountdownJump, s1, 2) == Run(Countdown, CountdownJump, s2, 1);
    assert Run(Countdown, CountdownJump, s2, 1) == Run(Countdown, CountdownJump, s3, 0) == s3;
  }

  /**
   * One pass through the loop body, from the ありが: the cell is decremented and
   * おわり jumps back to ありが, unless the cell reached zero and it falls through.
   */
  lemma CountdownRound(s: State)
    requires Valid(Countdown, s) && s.ip == 3 && 0 < s.tape[s.ptr] < 256
    ensures JumpsInRange(Countdown, CountdownJump)
    ensures var t := Run(Countdown, CountdownJump, s, 3);
      && t.ptr == s.ptr && t.tape == s.tape[s.ptr := s.tape[s.ptr] - 1] && t.output == s.output
      && t.ip == (if s.tape[s.ptr] == 1 then 6 else 3)
  {
    var c := s.tape[s.ptr];
    var s1 := Step(Countdown, CountdownJump, s);
    assert s1 == s.(ip := 4);
    var s2 := Step(Countdown, CountdownJump, s1);
    assert s2 == s.(ip := 5, tape := s.tape[s.ptr := c - 1]);
    var s3 := Step(Countdown, CountdownJump, s2);
    assert s3 == s2.(ip := if c == 1 then 6 else 3);
    assert Run(Countdown, CountdownJump, s, 3) == Run(Countdown, CountdownJump, s1, 2);
    assert Run(Countdown, CountdownJump, s1, 2) == Run(Countdown, CountdownJump, s2, 1);
    assert Run(Countdown, CountdownJump, s2, 1) == Run(Countdown, CountdownJump, s3, 0) == s3;
  }

  /** With the cell at zero after the loop, SyB writes it and the program ends. */
  lemma CountdownFinish(s: State)
    requires Valid(Countdown, s) && s.ip == 6 && s.tape[s.ptr] == 0
    ensures JumpsInRange(Countdown, CountdownJump)
    ensures var t := Run(Countdown, CountdownJump, s, 1); t.output == s.output + [0] && t.ip == 7
  {
    var t := Step(Countdown, CountdownJump, s);
    assert t == s.(output := s.output + [LowByte(0)], ip := 7);
    assert Run(Countdown, CountdownJump, s, 1) == Run(Countdown, CountdownJump, t, 0) == t;
  }
}
