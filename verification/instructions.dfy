/**
 * The fixed instruction table, the opcode each instruction stands for, and
 * the ordering of the table by decreasing byte length that precedes tokenizing.
 */
module Instructions {
  import opened Wrappers
  import opened Utf8

  // The UTF-8 bytes of the eight instructions, in the order the program lists them.
  const SleepyText: seq<byte> := [0x53, 0x6C, 0x65, 0x65, 0x70, 0x79]  // Sleepy
  const BoardText: seq<byte> := [0x42, 0x6F, 0x61, 0x72, 0x64]  // Board
  const TouText: seq<byte> := [0xE3, 0x81, 0xA8, 0xE3, 0x81, 0x86]  // とう
  const KamiDeWaNaiText: seq<byte> :=  // 神ではない
    [0xE7, 0xA5, 0x9E, 0xE3, 0x81, 0xA7, 0xE3, 0x81, 0xAF, 0xE3, 0x81, 0xAA, 0xE3, 0x81, 0x84]
  const SyBText: seq<byte> := [0x53, 0x79, 0x42]  // SyB
  const ReadText: seq<byte> := [0x23, 0x35, 0x35, 0x38, 0x35, 0x31, 0x37, 0x32]  // #5585172
  const ArigaText: seq<byte> := [0xE3, 0x81, 0x82, 0xE3, 0x82, 0x8A, 0xE3, 0x81, 0x8C]  // ありが
  const OwariText: seq<byte> := [0xE3, 0x81, 0x8A, 0xE3, 0x82, 0x8F, 0xE3, 0x82, 0x8A]  // おわり

  /** The instruction list in the order the program declares it, before sorting. */
  const Table: seq<seq<byte>> :=
    [SleepyText, BoardText, TouText, KamiDeWaNaiText, SyBText, ReadText, ArigaText, OwariText]

  /** The table the tokenizer is given: sorted by decreasing length. */
  const SortedTable: seq<seq<byte>> := SortByLength(Table)

  datatype Opcode =
    | Increment     // とう
    | Decrement     // 神ではない
    | PointerRight  // Sleepy
    | PointerLeft   // Board
    | Output        // SyB
    | Input         // #5585172
    | LoopOpen      // ありが
    | LoopClose     // おわり

  /**
   * The instruction a token stands for, in the order in which the execution loop compares
   * the token text with them; a text that is no instruction does nothing (None).
   * Only ありが opens a loop and only おわり closes one.
   */
  function OpcodeOf(t: seq<byte>): (r: Option<Opcode>)
    ensures r == Some(LoopOpen) <==> t == ArigaText
    ensures r == Some(LoopClose) <==> t == OwariText
  {
    if t == TouText then Some(Increment)
    else if t == KamiDeWaNaiText then Some(Decrement)
    else if t == SleepyText then Some(PointerRight)
    else if t == BoardText then Some(PointerLeft)
    else if t == SyBText then Some(Output)
    else if t == ReadText then Some(Input)
    else if t == ArigaText then Some(LoopOpen)
    else if t == OwariText then Some(LoopClose)
    else None
  }

  /**
   * Exactly the texts of the instruction list stand for an instruction, each
   * for a different one.
   */
  lemma OpcodeOfTable(t: seq<byte>)
    ensures OpcodeOf(t).Some? <==> t in Table
    ensures forall j, k :: 0 <= j < k < |Table| ==> OpcodeOf(Table[j]) != OpcodeOf(Table[k])
  {
  }

  /** Each instruction is at least as long as every instruction after it. */
  predicate NonIncreasingLength(insts: seq<seq<byte>>)
  {
    forall j, k :: 0 <= j < k < |insts| ==> |insts[j]| >= |insts[k]|
  }

  /**
   * The instruction list ordered by decreasing byte length. The program uses an
   * unstable sort, so the order among instructions of equal length is not
   * determined; this model keeps them in their original order, and only the
   * two properties stated below are relied upon.
   */
  function SortByLength(insts: seq<seq<byte>>): (r: seq<seq<byte>>)
    ensures multiset(r) == multiset(insts)
    ensures NonIncreasingLength(r)
  {
    if insts == [] then []
    else
      assert insts == [insts[0]] + insts[1..];
      var rest := SortByLength(insts[1..]);
      InsertByLengthPermutes(insts[0], rest);
      InsertByLength(insts[0], rest)
  }

  /** Places `x` in front of the first instruction of `sorted` that is not longer than it. */
  function InsertByLength(x: seq<byte>, sorted: seq<seq<byte>>): (r: seq<seq<byte>>)
    requires NonIncreasingLength(sorted)
    ensures NonIncreasingLength(r)
    ensures forall y :: y in r <==> y == x || y in sorted
  {
    if sorted == [] || |sorted[0]| <= |x| then [x] + sorted
    else
      var rest := InsertByLength(x, sorted[1..]);
      assert sorted == [sorted[0]] + sorted[1..];
      assert forall j :: 0 <= j < |rest| ==> |rest[j]| <= |sorted[0]| by {
        forall j | 0 <= j < |rest| ensures |rest[j]| <= |sorted[0]| {
          assert rest[j] in rest;
        }
      }
      [sorted[0]] + rest
  }

  /** The table the tokenizer is given holds the eight instructions, longest first. */
  lemma SortedTableOrdered()
    ensures multiset(SortedTable) == multiset(Table) && |SortedTable| == 8
    ensures NonIncreasingLength(SortedTable)
  {
  }

  /** Inserting adds exactly one occurrence of `x` and keeps every other instruction. */
  lemma {:induction false} InsertByLengthPermutes(x: seq<byte>, sorted: seq<seq<byte>>)
    requires NonIncreasingLength(sorted)
    ensures multiset(InsertByLength(x, sorted)) == multiset(sorted) + multiset{x}
  {
    if sorted != [] && |sorted[0]| > |x| {
      InsertByLengthPermutes(x, sorted[1..]);
      assert sorted == [sorted[0]] + sorted[1..];
    }
  }

  /** No instruction is a prefix of a different instruction of the list. */
  predicate PrefixFree(insts: seq<seq<byte>>)
  {
    forall j, k :: 0 <= j < |insts| && 0 <= k < |insts| && insts[j] <= insts[k] ==> insts[j] == insts[k]
  }

  /** The fixed table has no instruction that is a prefix of another. */
  lemma TablePrefixFree()
    ensures PrefixFree(Table)
  {
    forall j, k | 0 <= j < |Table| && 0 <= k < |Table| && Table[j] <= Table[k]
      ensures Table[j] == Table[k]
    {
      assert Table[j][..3] == Table[k][..3];
      assert Table[j][0] == Table[k][0] && Table[j][1] == Table[k][1] && Table[j][2] == Table[k][2];
    }
  }
}
