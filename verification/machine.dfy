/**
 * The machine that runs a token list: a tape of 30000 integer cells, a cell
 * pointer, an instruction pointer, and the program's input and output
 * streams, modelled as byte sequences.
 *
 * The execution loop compares each token's text with the instruction texts;
 * `OpcodeOf` is that comparison. The step relation is stated over the program those
 * comparisons see, `Decode(tokens)`, one instruction (or none) per token.
 */
module Machine {
  import opened Wrappers
  import opened Utf8
  import opened Instructions
  import opened JumpTable

  /** The number of cells on the tape. */
  const TapeSize: nat := 30000

  /** What the execution loop reads at each token position. */
  type Program = seq<Option<Opcode>>

  /** The instruction each token stands for, position by position. */
  function Decode(tokens: seq<seq<byte>>): (prog: Program)
    ensures |prog| == |tokens|
  {
    if tokens == [] then [] else [OpcodeOf(tokens[0])] + Decode(tokens[1..])
  }

  lemma {:induction false} DecodeAt(tokens: seq<seq<byte>>, i: nat)
    requires i < |tokens|
    ensures Decode(tokens)[i] == OpcodeOf(tokens[i])
  {
    if i > 0 {
      DecodeAt(tokens[1..], i - 1);
    }
  }

  /**
   * A machine state. `input` holds the bytes not yet read; `output` holds the
   * bytes written so far, oldest first.
   */
  datatype State = State(ip: nat, ptr: nat, tape: seq<int>, input: seq<byte>, output: seq<byte>)

  /** The instruction pointer is at most one past the last token and the pointer is on the tape. */
  predicate Valid(prog: Program, s: State)
  {
    s.ip <= |prog| && s.ptr < TapeSize && |s.tape| == TapeSize
  }

  /** Every cell holds a value of one byte. */
  predicate CellsAreBytes(s: State)
  {
    forall k :: 0 <= k < |s.tape| ==> 0 <= s.tape[k] < 256
  }

  /** The machine before the first instruction: every cell zero, nothing written. */
  function Init(input: seq<byte>): (s: State)
    ensures s.ip == 0 && s.ptr == 0 && |s.tape| == TapeSize && s.input == input && s.output == []
  {
    State(0, 0, seq(TapeSize, _ => 0), input, [])
  }

  lemma InitValid(prog: Program, input: seq<byte>)
    ensures Valid(prog, Init(input)) && CellsAreBytes(Init(input))
    ensures forall k :: 0 <= k < TapeSize ==> Init(input).tape[k] == 0
  {
  }

  /**
   * The low byte of a cell value, as `& 0xFF` and a conversion to `char` both
   * take it: on two's complement integers that is Euclidean `% 256`.
   */
  function LowByte(c: int): (b: byte)
    ensures 0 <= c < 256 ==> b as int == c
  {
    (c % 256) as byte
  }

  /** A cell after とう: `(c + 1) & 0xFF`, so 255 becomes 0. */
  function CellUp(c: int): (r: int)
    ensures 0 <= r < 256
    ensures 0 <= c < 255 ==> r == c + 1
    ensures c == 255 ==> r == 0
  {
    LowByte(c + 1) as int
  }

  /** A cell after 神ではない: `(c - 1) & 0xFF`, so 0 becomes 255. */
  function CellDown(c: int): (r: int)
    ensures 0 <= r < 256
    ensures 0 < c < 256 ==> r == c - 1
    ensures c == 0 ==> r == 255
  {
    LowByte(c - 1) as int
  }

  /** The pointer after Sleepy: `(ptr + 1) % 30000`. */
  function PointerUp(p: nat): (r: nat)
    requires p < TapeSize
    ensures r < TapeSize
    ensures p < TapeSize - 1 ==> r == p + 1
    ensures p == TapeSize - 1 ==> r == 0
  {
    (p + 1) % TapeSize
  }

  /** The pointer after Board: one cell to the left, from cell 0 to the last cell. */
  function PointerDown(p: nat): (r: nat)
    requires p < TapeSize
    ensures r < TapeSize
    ensures p > 0 ==> r == p - 1
    ensures p == 0 ==> r == TapeSize - 1
  {
    if p == 0 then TapeSize - 1 else p - 1
  }

  /** とう and 神ではない undo each other, as do Sleepy and Board. */
  lemma CellUpDownInverse(c: int)
    requires 0 <= c < 256
    ensures CellDown(CellUp(c)) == c && CellUp(CellDown(c)) == c
  {
  }

  lemma PointerUpDownInverse(p: nat)
    requires p < TapeSize
    ensures PointerDown(PointerUp(p)) == p && PointerUp(PointerDown(p)) == p
  {
  }

  /**
   * The jump table as the machine sees it: every ありが position maps to a later
   * おわり position and every おわり position to an earlier ありが, each the
   * other's partner.
   */
  ghost predicate JumpsPaired(prog: Program, jump: map<nat, nat>)
  {
    && (forall i :: 0 <= i < |prog| && prog[i] == Some(LoopOpen) ==>
          i in jump && i < jump[i] < |prog| && prog[jump[i]] == Some(LoopClose)
          && jump[i] in jump && jump[jump[i]] == i)
    && (forall i :: 0 <= i < |prog| && prog[i] == Some(LoopClose) ==>
          i in jump && jump[i] < i && prog[jump[i]] == Some(LoopOpen)
          && jump[i] in jump && jump[jump[i]] == i)
  }

  /** What a step needs of the jump table: an entry for every loop instruction, pointing into the program. */
  ghost predicate JumpsInRange(prog: Program, jump: map<nat, nat>)
  {
    forall i :: 0 <= i < |prog| && prog[i] in {Some(LoopOpen), Some(LoopClose)} ==> i in jump && jump[i] < |prog|
  }

  lemma PairedInRange(prog: Program, jump: map<nat, nat>)
    requires JumpsPaired(prog, jump)
    ensures JumpsInRange(prog, jump)
  {
  }

  /** The table the jump-table pass builds is one the machine can run with. */
  lemma PairedProgram(tokens: seq<seq<byte>>, jump: map<nat, nat>)
    requires JumpTableOk(tokens, jump)
    ensures JumpsPaired(Decode(tokens), jump)
  {
    var prog := Decode(tokens);
    forall i | 0 <= i < |prog| && prog[i] in {Some(LoopOpen), Some(LoopClose)}
      ensures i in jump && jump[i] < |prog| && jump[i] in jump && jump[jump[i]] == i
      ensures prog[i] == Some(LoopOpen) ==> i < jump[i] && prog[jump[i]] == Some(LoopClose)
      ensures prog[i] == Some(LoopClose) ==> jump[i] < i && prog[jump[i]] == Some(LoopOpen)
    {
      DecodeAt(tokens, i);
      OpcodeOfTable(tokens[i]);
      assert i in jump;
      DecodeAt(tokens, jump[i]);
      OpcodeOfTable(tokens[jump[i]]);
    }
  }

  /**
   * Executes the instruction at `s.ip`. A taken loop jump sets the instruction
   * pointer to the partner token itself (which is executed next); every other
   * case moves on to the next token. A token that names no instruction does nothing.
   */
  function Step(prog: Program, jump: map<nat, nat>, s: State): (t: State)
    requires JumpsInRange(prog, jump) && Valid(prog, s) && s.ip < |prog|
    ensures Valid(prog, t)
    ensures s.output <= t.output
    ensures t.input == s.input || (s.input != [] && t.input == s.input[1..])
  {
    var cell := s.tape[s.ptr];
    match prog[s.ip]
    case Some(Increment) => s.(tape := s.tape[s.ptr := CellUp(cell)], ip := s.ip + 1)
    case Some(Decrement) => s.(tape := s.tape[s.ptr := CellDown(cell)], ip := s.ip + 1)
    case Some(PointerRight) => s.(ptr := PointerUp(s.ptr), ip := s.ip + 1)
    case Some(PointerLeft) => s.(ptr := PointerDown(s.ptr), ip := s.ip + 1)
    case Some(Output) => s.(output := s.output + [LowByte(cell)], ip := s.ip + 1)
    case Some(Input) =>
      if s.input == [] then s.(tape := s.tape[s.ptr := 0], ip := s.ip + 1)
      else s.(tape := s.tape[s.ptr := s.input[0] as int], input := s.input[1..], ip := s.ip + 1)
    case Some(LoopOpen) => if cell == 0 then s.(ip := jump[s.ip]) else s.(ip := s.ip + 1)
    case Some(LoopClose) => if cell != 0 then s.(ip := jump[s.ip]) else s.(ip := s.ip + 1)
    case None => s.(ip := s.ip + 1)
  }

  /**
   * A step changes only what its instruction names: only the current cell is
   * ever written, only Sleepy and Board move the pointer, only SyB writes
   * output (the current cell, appended) and only #5585172 consumes input (at
   * most its first byte).
   */
  lemma StepFrame(prog: Program, jump: map<nat, nat>, s: State)
    requires JumpsInRange(prog, jump) && Valid(prog, s) && s.ip < |prog|
    ensures var t := Step(prog, jump, s); var op := prog[s.ip];
      && (forall k :: 0 <= k < TapeSize && k != s.ptr ==> t.tape[k] == s.tape[k])
      && (t.tape[s.ptr] != s.tape[s.ptr] ==> op in {Some(Increment), Some(Decrement), Some(Input)})
      && (t.ptr != s.ptr ==> op in {Some(PointerRight), Some(PointerLeft)})
      && (t.output == if op == Some(Output) then s.output + [LowByte(s.tape[s.ptr])] else s.output)
      && (t.input == if op == Some(Input) && s.input != [] then s.input[1..] else s.input)
      && (t.ip != s.ip + 1 ==> op in {Some(LoopOpen), Some(LoopClose)})
  {
  }

  /** #5585172 stores the next input byte in the current cell, or 0 at end of input. */
  lemma StepReads(prog: Program, jump: map<nat, nat>, s: State)
    requires JumpsInRange(prog, jump) && Valid(prog, s) && s.ip < |prog|
    requires prog[s.ip] == Some(Input)
    ensures var t := Step(prog, jump, s);
      && (s.input == [] ==> t.tape[s.ptr] == 0 && t.input == [])
      && (s.input != [] ==> t.tape[s.ptr] == s.input[0] as int && [s.input[0]] + t.input == s.input)
  {
  }

  /** Every instruction leaves every cell holding a byte value. */
  lemma StepKeepsBytes(prog: Program, jump: map<nat, nat>, s: State)
    requires JumpsInRange(prog, jump) && Valid(prog, s) && s.ip < |prog|
    requires CellsAreBytes(s)
    ensures CellsAreBytes(Step(prog, jump, s))
  {
  }

  /**
   * ありが on a zero cell jumps to its おわり, which is executed next and, the
   * cell still being zero, falls through: execution goes on after the loop.
   */
  lemma SkipLoop(prog: Program, jump: map<nat, nat>, s: State)
    requires JumpsPaired(prog, jump) && Valid(prog, s) && s.ip < |prog|
    requires prog[s.ip] == Some(LoopOpen) && s.tape[s.ptr] == 0
    ensures var t := Step(prog, jump, s);
      && t.ip == jump[s.ip] && s.ip < t.ip < |prog|
      && var u := Step(prog, jump, t);
      u == s.(ip := jump[s.ip] + 1)
  {
  }

  /**
   * おわり on a non-zero cell jumps back to its ありが, which is executed next
   * and, the cell still being non-zero, falls through into the loop body again.
   */
  lemma RepeatLoop(prog: Program, jump: map<nat, nat>, s: State)
    requires JumpsPaired(prog, jump) && Valid(prog, s) && s.ip < |prog|
    requires prog[s.ip] == Some(LoopClose) && s.tape[s.ptr] != 0
    ensures var t := Step(prog, jump, s);
      && t.ip == jump[s.ip] && t.ip < s.ip
      && var u := Step(prog, jump, t);
      u == s.(ip := jump[s.ip] + 1)
  {
  }

  /**
   * Runs at most `fuel` steps, stopping as soon as the instruction pointer
   * reaches the end of the tokens.
   */
  function Run(prog: Program, jump: map<nat, nat>, s: State, fuel: nat): (t: State)
    requires JumpsInRange(prog, jump) && Valid(prog, s)
    ensures Valid(prog, t)
    decreases fuel
  {
    if s.ip == |prog| || fuel == 0 then s
    else Run(prog, jump, Step(prog, jump, s), fuel - 1)
  }

  /**
   * Over a run, output is only ever appended to and input is only consumed from
   * the front; a run that has not reached the end of the tokens used up all its fuel.
   */
  lemma {:induction false} RunMonotone(prog: Program, jump: map<nat, nat>, s: State, fuel: nat)
    requires JumpsInRange(prog, jump) && Valid(prog, s)
    ensures var t := Run(prog, jump, s, fuel);
      && s.output <= t.output
      && |t.input| <= |s.input| && t.input == s.input[|s.input| - |t.input|..]
    decreases fuel
  {
    if s.ip != |prog| && fuel > 0 {
      RunMonotone(prog, jump, Step(prog, jump, s), fuel - 1);
    }
  }

  /** Each step writes at most one byte, so a run writes at most one byte per unit of fuel. */
  lemma {:induction false} RunOutputBound(prog: Program, jump: map<nat, nat>, s: State, fuel: nat)
    requires JumpsInRange(prog, jump) && Valid(prog, s)
    ensures |Run(prog, jump, s, fuel).output| <= |s.output| + fuel
    decreases fuel
  {
    if s.ip != |prog| && fuel > 0 {
      StepFrame(prog, jump, s);
      RunOutputBound(prog, jump, Step(prog, jump, s), fuel - 1);
    }
  }

  /** Starting from byte-valued cells, every cell holds a byte value after any run. */
  lemma {:induction false} RunKeepsBytes(prog: Program, jump: map<nat, nat>, s: State, fuel: nat)
    requires JumpsInRange(prog, jump) && Valid(prog, s) && CellsAreBytes(s)
    ensures CellsAreBytes(Run(prog, jump, s, fuel))
    decreases fuel
  {
    if s.ip != |prog| && fuel > 0 {
      StepKeepsBytes(prog, jump, s);
      RunKeepsBytes(prog, jump, Step(prog, jump, s), fuel - 1);
    }
  }

  /** A run that stopped before its fuel ran out stays stopped: more fuel changes nothing. */
  lemma {:induction false} RunHaltedStable(prog: Program, jump: map<nat, nat>, s: State, n: nat, m: nat)
    requires JumpsInRange(prog, jump) && Valid(prog, s)
    requires Run(prog, jump, s, n).ip == |prog|
    ensures Run(prog, jump, s, n + m) == Run(prog, jump, s, n)
    decreases n
  {
    if s.ip != |prog| {
      RunHaltedStable(prog, jump, Step(prog, jump, s), n - 1, m);
    }
  }

  /**
   * A run that has not reached the end of the tokens used all its fuel: no
   * shorter run reached the end either.
   */
  lemma RunUnfinishedUsedFuel(prog: Program, jump: map<nat, nat>, s: State, n: nat, fuel: nat)
    requires JumpsInRange(prog, jump) && Valid(prog, s)
    requires n <= fuel && Run(prog, jump, s, fuel).ip < |prog|
    ensures Run(prog, jump, s, n).ip < |prog|
  {
    if Run(prog, jump, s, n).ip == |prog| {
      RunHaltedStable(prog, jump, s, n, fuel - n);
    }
  }

  /** Running `n` steps and then `m` more is running `n + m` steps. */
  lemma {:induction false} RunAdditive(prog: Program, jump: map<nat, nat>, s: State, n: nat, m: nat)
    requires JumpsInRange(prog, jump) && Valid(prog, s)
    ensures Run(prog, jump, Run(prog, jump, s, n), m) == Run(prog, jump, s, n + m)
    decreases n
  {
    if s.ip != |prog| && n > 0 {
      var t := Step(prog, jump, s);
      assert Run(prog, jump, s, n) == Run(prog, jump, t, n - 1);
      assert Run(prog, jump, s, n + m) == Run(prog, jump, t, n - 1 + m);
      RunAdditive(prog, jump, t, n - 1, m);
    }
  }

  /** A run one unit of fuel longer takes one more step at its end, unless it had stopped. */
  lemma {:induction false} RunSnoc(prog: Program, jump: map<nat, nat>, s: State, n: nat)
    requires JumpsInRange(prog, jump) && Valid(prog, s)
    requires Run(prog, jump, s, n).ip < |prog|
    ensures Run(prog, jump, s, n + 1) == Step(prog, jump, Run(prog, jump, s, n))
    decreases n
  {
    if n > 0 {
      RunSnoc(prog, jump, Step(prog, jump, s), n - 1);
    }
  }

  /**
   * Runs the tokens on a fresh machine for at most `fuel` steps, with the tape
   * held in an array that is updated in place, and returns what was written
   * and whether the program reached its end.
   */
  method Execute(tokens: seq<seq<byte>>, jump: map<nat, nat>, input: seq<byte>, fuel: nat)
    returns (output: seq<byte>, halted: bool)
    requires JumpsInRange(Decode(tokens), jump)
    ensures var t := Run(Decode(tokens), jump, Init(input), fuel);
      output == t.output && halted == (t.ip == |tokens|)
  {
    ghost var prog := Decode(tokens);
    var tape := new int[TapeSize](_ => 0);
    var ip: nat, ptr: nat, rest := 0, 0, input;
    output := [];
    var steps: nat := 0;
    assert State(ip, ptr, tape[..], rest, output) == Init(input);
    InitValid(prog, input);
    while ip < |tokens| && steps < fuel
      invariant steps <= fuel && tape.Length == TapeSize
      invariant Valid(prog, State(ip, ptr, tape[..], rest, output))
      invariant State(ip, ptr, tape[..], rest, output) == Run(prog, jump, Init(input), steps)
      decreases fuel - steps
    {
      RunSnoc(prog, jump, Init(input), steps);
      ip, ptr, rest, output := ExecuteStep(tokens, jump, tape, ip, ptr, rest, output);
      steps := steps + 1;
    }
    if ip == |tokens| {
      RunHaltedStable(prog, jump, Init(input), steps, fuel - steps);
    }
    halted := ip == |tokens|;
  }

  /**
   * One pass of the execution loop on the array tape: the token's text is
   * compared with the instruction texts in the program's order, and a taken
   * loop jump leaves at once with the partner's position, skipping the move to
   * the next token.
   */
  method ExecuteStep(tokens: seq<seq<byte>>, jump: map<nat, nat>, tape: array<int>,
                     ip: nat, ptr: nat, rest: seq<byte>, output: seq<byte>)
    returns (ip': nat, ptr': nat, rest': seq<byte>, output': seq<byte>)
    requires JumpsInRange(Decode(tokens), jump) && ip < |tokens| && tape.Length == TapeSize
    requires Valid(Decode(tokens), State(ip, ptr, tape[..], rest, output))
    modifies tape
    ensures State(ip', ptr', tape[..], rest', output')
      == Step(Decode(tokens), jump, State(ip, ptr, old(tape[..]), rest, output))
  {
    DecodeAt(tokens, ip);
    ip', ptr', rest', output' := ip, ptr, rest, output;
    match OpcodeOf(tokens[ip]) {
      case Some(Increment) =>
        tape[ptr] := CellUp(tape[ptr]);
      case Some(Decrement) =>
        tape[ptr] := CellDown(tape[ptr]);
      case Some(PointerRight) =>
        ptr' := PointerUp(ptr);
      case Some(PointerLeft) =>
        ptr' := PointerDown(ptr);
      case Some(Output) =>
        output' := output + [LowByte(tape[ptr])];
      case Some(Input) =>
        if rest == [] {
          tape[ptr] := 0;
        } else {
          tape[ptr] := rest[0] as int;
          rest' := rest[1..];
        }
      case Some(LoopOpen) =>
        if tape[ptr] == 0 {
          ip' := jump[ip];
          return;
        }
      case Some(LoopClose) =>
        if tape[ptr] != 0 {
          ip' := jump[ip];
          return;
        }
      case None =>
    }
    ip' := ip + 1;
  }
}
