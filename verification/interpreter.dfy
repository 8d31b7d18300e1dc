/**
 * The interpreter once the source file has been read into bytes: the fixed
 * instruction list is sorted by length, the code is tokenized against it, the
 * jump table is built (which fails on unbalanced loops) and the tokens are run
 * on a fresh machine.
 */
module Interpreter {
  import opened Wrappers
  import opened Utf8
  import opened Instructions
  import opened Tokenizer
  import opened JumpTable
  import opened Machine

  /** What a run that got past the jump table produced, and whether it reached the end of the tokens. */
  datatype Outcome = Outcome(output: seq<byte>, halted: bool)

  /** No instruction of the fixed list is empty. */
  lemma TableHasNoEmptyInstruction()
    ensures NoEmptyInstruction(Table)
  {
  }

  /**
   * The tokens of a source text: the instructions it contains, scanned against
   * the list in declaration order. Every token stands for an instruction.
   */
  function Tokens(code: seq<byte>): (tokens: seq<seq<byte>>)
    ensures forall t :: t in tokens ==> t in Table
  {
    TableHasNoEmptyInstruction();
    ScanInTable(code, Table, 0);
    Scan(code, Table, 0)
  }

  /** A source text written only in instructions tokenizes back to exactly those instructions. */
  lemma TokensOfInstructions(ts: seq<seq<byte>>)
    requires forall k :: 0 <= k < |ts| ==> ts[k] in Table
    ensures Tokens(Concat(ts)) == ts
  {
    TableHasNoEmptyInstruction();
    TablePrefixFree();
    assert Concat(ts)[0..] == Concat(ts);
    ConcatSpells(Concat(ts), 0, ts);
    ScanOfInstructions(Concat(ts), 0, ts, Table);
  }

  /** Every position of a tokenized program holds an instruction: no token does nothing. */
  lemma TokensAreInstructions(code: seq<byte>)
    ensures var prog := Decode(Tokens(code)); forall i :: 0 <= i < |prog| ==> prog[i].Some?
  {
    var tokens := Tokens(code);
    forall i | 0 <= i < |tokens| ensures Decode(tokens)[i].Some? {
      DecodeAt(tokens, i);
      assert tokens[i] in tokens;
      OpcodeOfTable(tokens[i]);
    }
  }

  /**
   * What running a balanced token list with its jump table does within
   * `fuel` steps, starting from a zeroed tape with the given input.
   */
  ghost function Behaviour(tokens: seq<seq<byte>>, jump: map<nat, nat>, input: seq<byte>, fuel: nat): (o: Outcome)
    requires JumpTableOk(tokens, jump)
    ensures |o.output| <= fuel
  {
    PairedProgram(tokens, jump);
    PairedInRange(Decode(tokens), jump);
    RunOutputBound(Decode(tokens), jump, Init(input), fuel);
    var t := Run(Decode(tokens), jump, Init(input), fuel);
    Outcome(t.output, t.ip == |tokens|)
  }

  /**
   * Runs a source text. The tokens do not depend on how the sort ordered
   * instructions of equal length; an unmatched おわり and an unclosed ありが are
   * reported as the two errors; otherwise the result is what running the tokens
   * with their (unique) jump table produces.
   */
  method Interpret(code: seq<byte>, input: seq<byte>, fuel: nat) returns (r: Result<Outcome, JumpError>)
    ensures var tokens := Tokens(code);
      && (r.Success? <==> Balanced(tokens, 0, |tokens|))
      && (r == Failure(UnmatchedLoopClose) <==> CloseUnderflows(tokens))
      && (r == Failure(UnmatchedLoopOpen) <==> !CloseUnderflows(tokens) && Depth(tokens, 0, |tokens|) > 0)
      && (r.Success? ==> exists jump :: JumpTableOk(tokens, jump) && r.value == Behaviour(tokens, jump, input, fuel))
      && (r.Success? ==> forall jump :: JumpTableOk(tokens, jump) ==> r.value == Behaviour(tokens, jump, input, fuel))
  {
    TableHasNoEmptyInstruction();
    TablePrefixFree();
    SortedScan(code, Table);
    var tokens := Tokenize(code, SortedTable);
    var built := BuildJumpTable(tokens);
    if built.Failure? {
      return Failure(built.error);
    }
    var jump := built.value;
    PairedProgram(tokens, jump);
    PairedInRange(Decode(tokens), jump);
    var output, halted := Execute(tokens, jump, input, fuel);
    r := Success(Outcome(output, halted));
    assert tokens == Tokens(code);
    forall other | JumpTableOk(tokens, other) ensures r.value == Behaviour(tokens, other, input, fuel) {
      JumpTableIsUnique(tokens, jump, other);
    }
  }
}
