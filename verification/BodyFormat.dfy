/** Function bodies in the code section of a bytecode module (src/bytecode/BytecodeCodec.cpp:75-148,
    151-221, 289-302, 800-859, 1645-1786): what the encoder writes is what the decoder reads back,
    and none of the decoder's guards turns it away. */
module BodyFormat {
  import opened Options
  import opened Scalars
  import opened Wire

  // ----- the reader -----

  /** The fields of a Reader; once it is invalid it stays so and yields zeros. */
  datatype Cursor = Cursor(position: nat, end: nat, valid: bool)

  function Remaining(c: Cursor): nat {
    if c.valid && c.position <= c.end then c.end - c.position else 0
  }

  function U8(b: Bytes, c: Cursor): (Byte, Cursor) {
    if !c.valid || c.position >= c.end || c.position >= |b| then (0, c.(valid := false))
    else (b[c.position], c.(position := c.position + 1))
  }

  /** u32 and u64: byte by byte, low first. */
  function Unsigned(b: Bytes, c: Cursor, width: nat): (nat, Cursor)
    decreases width
  {
    if width == 0 then (0, c)
    else
      var (low, c) := U8(b, c);
      var (high, c) := Unsigned(b, c, width - 1);
      (low + 256 * high, c)
  }

  /** The reader stands, in good order, before the bytes e. */
  predicate Ready(b: Bytes, c: Cursor, e: Bytes) {
    c.valid && c.position + |e| <= c.end <= |b| && Stands(b, c.position, e)
  }

  function Skip(c: Cursor, n: nat): Cursor { c.(position := c.position + n) }

  lemma ReadyApart(b: Bytes, c: Cursor, x: Bytes, y: Bytes)
    requires Ready(b, c, x + y)
    ensures Ready(b, c, x) && Ready(b, Skip(c, |x|), y) && Skip(Skip(c, |x|), |y|) == Skip(c, |x + y|)
  {
    StandsApart(b, c.position, x, y);
  }

  lemma {:induction false} ReadsNumber(b: Bytes, c: Cursor, n: nat, width: nat)
    requires Ready(b, c, Little(n, width)) && n < Pow256(width)
    ensures Unsigned(b, c, width) == (n, Skip(c, width))
    decreases width
  {
    if width > 0 {
      ReadyApart(b, c, [n % 256], Little(n / 256, width - 1));
      assert b[c.position..c.position + 1] == [n % 256];
      ReadsNumber(b, Skip(c, 1), n / 256, width - 1);
    }
  }

  lemma ReadsByte(b: Bytes, c: Cursor, x: Byte)
    requires Ready(b, c, [x])
    ensures U8(b, c) == (x, Skip(c, 1))
  {
    assert b[c.position..c.position + 1] == [x];
  }

  // ----- lists -----

  datatype Read<T> = Refused | Ok(value: T, next: Cursor) {
    predicate IsFailure() { Refused? }

    function PropagateFailure<U>(): Read<U>
      requires Refused?
    {
      Refused
    }

    function Extract(): (T, Cursor)
      requires Ok?
    {
      (value, next)
    }
  }

  function ReadMany<T>(read: Cursor -> Read<T>, c: Cursor, n: nat): Read<seq<T>>
    decreases n
  {
    if n == 0 then Ok([], c)
    else
      var (first, c) :- read(c);
      var (rest, c) :- ReadMany(read, c, n - 1);
      Ok([first] + rest, c)
  }

  /** Where the bytes of t stand, t is read. */
  ghost predicate Reads<T>(b: Bytes, read: Cursor -> Read<T>, write: T -> Bytes, t: T) {
    forall c :: Ready(b, c, write(t)) ==> read(c) == Ok(t, Skip(c, |write(t)|))
  }

  lemma {:induction false} ReadsMany<T>(b: Bytes, read: Cursor -> Read<T>, write: T -> Bytes, list: seq<T>, c: Cursor)
    requires forall i :: 0 <= i < |list| ==> Reads(b, read, write, list[i])
    requires Ready(b, c, WriteAll(write, list))
    ensures ReadMany(read, c, |list|) == Ok(list, Skip(c, |WriteAll(write, list)|))
    decreases |list|
  {
    if list != [] {
      ReadyApart(b, c, write(list[0]), WriteAll(write, list[1..]));
      assert Reads(b, read, write, list[0]);
      ReadsMany(b, read, write, list[1..], Skip(c, |write(list[0])|));
      assert [list[0]] + list[1..] == list && |list[1..]| == |list| - 1;
    }
  }

  lemma {:induction false} ListIsLong<T>(write: T -> Bytes, list: seq<T>, least: nat)
    requires forall i :: 0 <= i < |list| ==> |write(list[i])| >= least
    ensures |WriteAll(write, list)| >= least * |list|
    decreases |list|
  {
    if list != [] {
      ListIsLong(write, list[1..], least);
      assert least * |list| == least + least * (|list| - 1);
    }
  }

  lemma GuardPasses(count: nat, least: nat, remaining: nat)
    requires least > 0 && remaining >= least * count
    ensures count <= remaining / least
  {
    TimesGrows(least, remaining / least + 1, count);
  }

  lemma TimesGrows(least: nat, a: nat, b: nat)
    ensures a <= b ==> least * a <= least * b
  {
  }

  function Word(n: nat): Bytes { Little(n, 4) }

  predicate WordFits(n: nat) { n < Pow256(4) }

  predicate WordsFit(list: seq<nat>) {
    WordFits(|list|) && forall i | 0 <= i < |list| :: WordFits(list[i])
  }

  function ReadWord(b: Bytes): Cursor -> Read<nat> {
    (c: Cursor) => var (n, c) := Unsigned(b, c, 4); Ok(n, c)
  }

  /** writeRegisters. */
  function WordsBytes(list: seq<nat>): Bytes { Word(|list|) + WriteAll(Word, list) }

  /** readRegisters, and the list of protected blocks. */
  function ReadWords(b: Bytes, c: Cursor): Read<seq<nat>> {
    var (n, c) := Unsigned(b, c, 4);
    if !c.valid || n > Remaining(c) / 4 then Refused else ReadMany(ReadWord(b), c, n)
  }

  lemma ReadsWords(b: Bytes, c: Cursor, list: seq<nat>)
    requires WordsFit(list) && Ready(b, c, WordsBytes(list))
    ensures ReadWords(b, c) == Ok(list, Skip(c, |WordsBytes(list)|))
  {
    hide Little, Unsigned, Pow256;
    ReadyApart(b, c, Word(|list|), WriteAll(Word, list));
    ReadsNumber(b, c, |list|, 4);
    forall i | 0 <= i < |list| ensures Reads(b, ReadWord(b), Word, list[i]) {
      forall d | Ready(b, d, Word(list[i])) ensures ReadWord(b)(d) == Ok(list[i], Skip(d, 4)) {
        ReadsNumber(b, d, list[i], 4);
      }
    }
    ReadsMany(b, ReadWord(b), Word, list, Skip(c, 4));
    ListIsLong(Word, list, 4);
    GuardPasses(|list|, 4, Remaining(Skip(c, 4)));
  }

  // ----- types -----

  /** encodeOptionalType. */
  function TypeTag(t: PrimitiveType): Byte {
    match t
    case Void => 0
    case Bool => 1
    case Int => 2
    case String => 3
    case Object => 4
    case Null => 5
    case Array => 6
    case Handle => 7
    case Long => 8
    case Double => 9
    case Struct => 10
    case Enum => 11
    case Byte => 12
    case SByte => 13
    case Short => 14
    case UShort => 15
    case UInt => 16
    case ULong => 17
    case Float => 18
    case Char => 19
    case ErrorType => 0xff
  }

  const TYPES: seq<PrimitiveType> :=
    [Void, Bool, Int, String, Object, Null, Array, Handle, Long, Double, Struct, Enum, Byte, SByte, Short, UShort,
     UInt, ULong, Float, Char]

  /** decodeType. */
  function TypeOfTag(tag: Byte): Maybe<PrimitiveType> {
    if tag < |TYPES| then Some(TYPES[tag]) else None
  }

  function OptionalTypeOfTag(tag: Byte): Maybe<PrimitiveType> {
    if tag == 0xff then Some(ErrorType) else TypeOfTag(tag)
  }

  lemma TypesRoundTrip(t: PrimitiveType)
    ensures OptionalTypeOfTag(TypeTag(t)) == Some(t)
    ensures !t.ErrorType? ==> TypeOfTag(TypeTag(t)) == Some(t)
  {
  }

  // ----- instructions -----

  const CONSTANT_STRING: nat := 4
  const LAST_OPCODE: nat := 65
  const LAST_TERMINATOR: nat := 5
  const INVALID_INDEX: nat := 0xffff_ffff

  datatype Instruction = Instruction(
    opcode: Byte, result: nat, operands: seq<nat>, index: nat, typeIndex: nat, elementType: PrimitiveType, elementTypeId: nat,
    integerImmediate: int, doubleImmediate: nat, boolImmediate: bool, checkedArithmetic: bool, stringImmediate: string)

  /** The strings of the module, each once. */
  type Pool = seq<string>

  function IndexOf(pool: Pool, s: string): nat {
    if pool == [] then 0 else if pool[0] == s then 0 else 1 + IndexOf(pool[1..], s)
  }

  lemma {:induction false} IndexOfFinds(pool: Pool, s: string)
    requires s in pool
    ensures IndexOf(pool, s) < |pool| && pool[IndexOf(pool, s)] == s
  {
    if pool[0] != s { IndexOfFinds(pool[1..], s); }
  }

  function Flags(i: Instruction): Byte { (if i.boolImmediate then 1 else 0) + (if i.checkedArithmetic then 0 else 2) }

  function StringIndex(pool: Pool, i: Instruction): nat {
    if i.opcode == CONSTANT_STRING then IndexOf(pool, i.stringImmediate) else INVALID_INDEX
  }

  function Bits64(n: int): nat { n % 0x1_0000_0000_0000_0000 }

  function Signed64(bits: nat): int {
    if bits < 0x8000_0000_0000_0000 then bits else bits - 0x1_0000_0000_0000_0000
  }

  function HeadBytes(i: Instruction): Bytes {
    [i.opcode] + (Word(i.result) + (WordsBytes(i.operands) + (Word(i.index) + Word(i.typeIndex))))
  }

  function TailBytes(pool: Pool, i: Instruction): Bytes {
    [TypeTag(i.elementType)] + (Little(i.elementTypeId, 8) + (Little(Bits64(i.integerImmediate), 8) +
    (Little(i.doubleImmediate, 8) + ([Flags(i)] + Word(StringIndex(pool, i))))))
  }

  function InstructionBytes(pool: Pool, i: Instruction): Bytes {
    HeadBytes(i) + TailBytes(pool, i)
  }

  /** What the C++ types say of an instruction; its string exists only for the opcode that uses it. */
  predicate InstructionFits(pool: Pool, i: Instruction) {
    && i.opcode <= LAST_OPCODE && WordFits(i.result) && WordsFit(i.operands) && WordFits(i.index) && WordFits(i.typeIndex)
    && i.elementTypeId < Pow256(8) && InInt64(i.integerImmediate) && i.doubleImmediate < Pow256(8)
    && if i.opcode == CONSTANT_STRING then i.stringImmediate in pool else i.stringImmediate == ""
  }

  function HeadAt(b: Bytes, c: Cursor): Read<(Byte, nat, seq<nat>, nat, nat)> {
    var (opcode, c) := U8(b, c);
    if opcode > LAST_OPCODE then Refused
    else
      var (result, c) := Unsigned(b, c, 4);
      var (operands, c) :- ReadWords(b, c);
      var (index, c) := Unsigned(b, c, 4);
      var (typeIndex, c) := Unsigned(b, c, 4);
      Ok((opcode, result, operands, index, typeIndex), c)
  }

  function TailAt(pool: Pool, b: Bytes, opcode: nat, c: Cursor): Read<(PrimitiveType, nat, int, nat, bool, bool, string)> {
    var (tag, c) := U8(b, c);
    var elementType := OptionalTypeOfTag(tag);
    if elementType.None? then Refused
    else
      var (elementTypeId, c) := Unsigned(b, c, 8);
      var (integerImmediate, c) := Unsigned(b, c, 8);
      var (doubleImmediate, c) := Unsigned(b, c, 8);
      var (flags, c) := U8(b, c);
      if flags > 3 then Refused
      else
        var (stringIndex, c) := Unsigned(b, c, 4);
        if (if opcode == CONSTANT_STRING then stringIndex >= |pool| else stringIndex != INVALID_INDEX) then Refused
        else
          Ok((elementType.value, elementTypeId, Signed64(integerImmediate), doubleImmediate, flags % 2 == 1, flags / 2 == 0,
              if opcode == CONSTANT_STRING then pool[stringIndex] else ""), c)
  }

  function InstructionAt(pool: Pool, b: Bytes, c: Cursor): Read<Instruction> {
    var (head, c) :- HeadAt(b, c);
    var (tail, c) :- TailAt(pool, b, head.0, c);
    Ok(Instruction(head.0, head.1, head.2, head.3, head.4, tail.0, tail.1, tail.2, tail.3, tail.4, tail.5, tail.6), c)
  }

  lemma ReadsHead(b: Bytes, c: Cursor, i: Instruction)
    requires i.opcode <= LAST_OPCODE && WordFits(i.result) && WordsFit(i.operands) && WordFits(i.index) && WordFits(i.typeIndex)
    requires Ready(b, c, HeadBytes(i))
    ensures HeadAt(b, c) == Ok((i.opcode, i.result, i.operands, i.index, i.typeIndex), Skip(c, |HeadBytes(i)|))
  {
    hide Little, Unsigned, Pow256, ReadWords, WordsBytes, Ready, U8;
    var last := Word(i.index) + Word(i.typeIndex);
    ReadyApart(b, c, [i.opcode], Word(i.result) + (WordsBytes(i.operands) + last));
    ReadsByte(b, c, i.opcode);
    var c1 := Skip(c, 1);
    ReadyApart(b, c1, Word(i.result), WordsBytes(i.operands) + last);
    ReadsNumber(b, c1, i.result, 4);
    var c2 := Skip(c1, 4);
    ReadyApart(b, c2, WordsBytes(i.operands), last);
    ReadsWords(b, c2, i.operands);
    var c3 := Skip(c2, |WordsBytes(i.operands)|);
    ReadyApart(b, c3, Word(i.index), Word(i.typeIndex));
    ReadsNumber(b, c3, i.index, 4);
    ReadsNumber(b, Skip(c3, 4), i.typeIndex, 4);
  }

  lemma Bits64RoundTrip(n: int)
    requires InInt64(n)
    ensures Bits64(n) < Pow256(8) && Signed64(Bits64(n)) == n
  {
    Widths();
  }

  lemma StringRoundTrip(pool: Pool, i: Instruction)
    requires InstructionFits(pool, i) && |pool| <= INVALID_INDEX
    ensures StringIndex(pool, i) < Pow256(4)
    ensures if i.opcode == CONSTANT_STRING then StringIndex(pool, i) < |pool| && pool[StringIndex(pool, i)] == i.stringImmediate
            else StringIndex(pool, i) == INVALID_INDEX
  {
    Widths();
    if i.opcode == CONSTANT_STRING { IndexOfFinds(pool, i.stringImmediate); }
  }

  lemma ReadsTail(pool: Pool, b: Bytes, c: Cursor, i: Instruction)
    requires InstructionFits(pool, i) && |pool| <= INVALID_INDEX && Ready(b, c, TailBytes(pool, i))
    ensures TailAt(pool, b, i.opcode, c) ==
            Ok((i.elementType, i.elementTypeId, i.integerImmediate, i.doubleImmediate, i.boolImmediate, i.checkedArithmetic,
                i.stringImmediate), Skip(c, |TailBytes(pool, i)|))
  {
    StringRoundTrip(pool, i);
    Bits64RoundTrip(i.integerImmediate);
    TypesRoundTrip(i.elementType);
    hide Little, Unsigned, Pow256, Ready, U8, TypeTag, OptionalTypeOfTag, Bits64, Signed64, StringIndex, WordsFit;
    var x5 := [Flags(i)] + Word(StringIndex(pool, i));
    var x4 := Little(i.doubleImmediate, 8) + x5;
    var x3 := Little(Bits64(i.integerImmediate), 8) + x4;
    var x2 := Little(i.elementTypeId, 8) + x3;
    ReadyApart(b, c, [TypeTag(i.elementType)], x2);
    ReadsByte(b, c, TypeTag(i.elementType));
    var c1 := Skip(c, 1);
    ReadyApart(b, c1, Little(i.elementTypeId, 8), x3);
    ReadsNumber(b, c1, i.elementTypeId, 8);
    var c2 := Skip(c1, 8);
    ReadyApart(b, c2, Little(Bits64(i.integerImmediate), 8), x4);
    ReadsNumber(b, c2, Bits64(i.integerImmediate), 8);
    var c3 := Skip(c2, 8);
    ReadyApart(b, c3, Little(i.doubleImmediate, 8), x5);
    ReadsNumber(b, c3, i.doubleImmediate, 8);
    var c4 := Skip(c3, 8);
    ReadyApart(b, c4, [Flags(i)], Word(StringIndex(pool, i)));
    ReadsByte(b, c4, Flags(i));
    ReadsNumber(b, Skip(c4, 1), StringIndex(pool, i), 4);
  }

  lemma ReadsInstruction(pool: Pool, b: Bytes, c: Cursor, i: Instruction)
    requires InstructionFits(pool, i) && |pool| <= INVALID_INDEX && Ready(b, c, InstructionBytes(pool, i))
    ensures InstructionAt(pool, b, c) == Ok(i, Skip(c, |InstructionBytes(pool, i)|))
  {
    hide HeadBytes, TailBytes, HeadAt, TailAt;
    ReadyApart(b, c, HeadBytes(i), TailBytes(pool, i));
    ReadsHead(b, c, i);
    ReadsTail(pool, b, Skip(c, |HeadBytes(i)|), i);
  }

  // ----- blocks -----

  datatype Parameter = Parameter(target: nat, ty: PrimitiveType, typeId: nat)

  datatype Terminator = Terminator(
    kind: Byte, condition: nat, value: nat, target: nat, falseTarget: nat, arguments: seq<nat>, falseArguments: seq<nat>)

  datatype Block = Block(id: nat, parameters: seq<Parameter>, instructions: seq<Instruction>, terminator: Terminator)

  datatype Handler = Handler(protectedBlocks: seq<nat>, handlerBlock: nat, catchTypeId: nat, exceptionLocal: nat)

  datatype Body = Body(blocks: seq<Block>, handlers: seq<Handler>)

  function ParameterBytes(x: Parameter): Bytes { Word(x.target) + ([TypeTag(x.ty)] + Little(x.typeId, 8)) }

  predicate ParameterFits(x: Parameter) { WordFits(x.target) && !x.ty.ErrorType? && x.typeId < Pow256(8) }

  function ParameterAt(b: Bytes, c: Cursor): Read<Parameter> {
    var (target, c) := Unsigned(b, c, 4);
    var (tag, c) := U8(b, c);
    var ty := TypeOfTag(tag);
    if ty.None? then Refused
    else
      var (typeId, c) := Unsigned(b, c, 8);
      Ok(Parameter(target, ty.value, typeId), c)
  }

  lemma ReadsParameter(b: Bytes, c: Cursor, x: Parameter)
    requires ParameterFits(x) && Ready(b, c, ParameterBytes(x))
    ensures ParameterAt(b, c) == Ok(x, Skip(c, |ParameterBytes(x)|))
  {
    TypesRoundTrip(x.ty);
    hide Little, Unsigned, Pow256, Ready, U8, TypeTag, TypeOfTag;
    ReadyApart(b, c, Word(x.target), [TypeTag(x.ty)] + Little(x.typeId, 8));
    ReadsNumber(b, c, x.target, 4);
    ReadyApart(b, Skip(c, 4), [TypeTag(x.ty)], Little(x.typeId, 8));
    ReadsByte(b, Skip(c, 4), TypeTag(x.ty));
    ReadsNumber(b, Skip(c, 5), x.typeId, 8);
  }

  function TerminatorBytes(t: Terminator): Bytes {
    [t.kind] + (Word(t.condition) + (Word(t.value) + (Word(t.target) + (Word(t.falseTarget) +
    (WordsBytes(t.arguments) + WordsBytes(t.falseArguments))))))
  }

  predicate TerminatorFits(t: Terminator) {
    && t.kind <= LAST_TERMINATOR && WordFits(t.condition) && WordFits(t.value) && WordFits(t.target) && WordFits(t.falseTarget)
    && WordsFit(t.arguments) && WordsFit(t.falseArguments)
  }

  function TerminatorAt(b: Bytes, c: Cursor): Read<Terminator> {
    var (kind, c) := U8(b, c);
    if kind > LAST_TERMINATOR then Refused
    else
      var (condition, c) := Unsigned(b, c, 4);
      var (value, c) := Unsigned(b, c, 4);
      var (target, c) := Unsigned(b, c, 4);
      var (falseTarget, c) := Unsigned(b, c, 4);
      var (arguments, c) :- ReadWords(b, c);
      var (falseArguments, c) :- ReadWords(b, c);
      Ok(Terminator(kind, condition, value, target, falseTarget, arguments, falseArguments), c)
  }

  lemma ReadsTerminator(b: Bytes, c: Cursor, t: Terminator)
    requires TerminatorFits(t) && Ready(b, c, TerminatorBytes(t))
    ensures TerminatorAt(b, c) == Ok(t, Skip(c, |TerminatorBytes(t)|))
  {
    hide Little, Unsigned, Pow256, Ready, U8, ReadWords, WordsBytes, WordsFit;
    var x5 := WordsBytes(t.arguments) + WordsBytes(t.falseArguments);
    var x4 := Word(t.falseTarget) + x5;
    var x3 := Word(t.target) + x4;
    var x2 := Word(t.value) + x3;
    ReadyApart(b, c, [t.kind], Word(t.condition) + x2);
    ReadsByte(b, c, t.kind);
    var c1 := Skip(c, 1);
    ReadyApart(b, c1, Word(t.condition), x2);
    ReadsNumber(b, c1, t.condition, 4);
    var c2 := Skip(c1, 4);
    ReadyApart(b, c2, Word(t.value), x3);
    ReadsNumber(b, c2, t.value, 4);
    var c3 := Skip(c2, 4);
    ReadyApart(b, c3, Word(t.target), x4);
    ReadsNumber(b, c3, t.target, 4);
    var c4 := Skip(c3, 4);
    ReadyApart(b, c4, Word(t.falseTarget), x5);
    ReadsNumber(b, c4, t.falseTarget, 4);
    var c5 := Skip(c4, 4);
    ReadyApart(b, c5, WordsBytes(t.arguments), WordsBytes(t.falseArguments));
    ReadsWords(b, c5, t.arguments);
    ReadsWords(b, Skip(c5, |WordsBytes(t.arguments)|), t.falseArguments);
  }

  /** A list behind its count, with the decoder's guard: at least so many bytes for an element. */
  function ListBytes<T>(write: T -> Bytes, list: seq<T>): Bytes { Word(|list|) + WriteAll(write, list) }

  function ListAt<T>(b: Bytes, read: Cursor -> Read<T>, least: nat, slack: nat, c: Cursor): Read<seq<T>>
    requires least > 0
  {
    var (n, c) := Unsigned(b, c, 4);
    if !c.valid || n > Remaining(c) / least + slack then Refused else ReadMany(read, c, n)
  }

  lemma ReadsList<T>(
    b: Bytes, read: Cursor -> Read<T>, write: T -> Bytes, least: nat, slack: nat, c: Cursor, list: seq<T>)
    requires least > 0 && WordFits(|list|) && Ready(b, c, ListBytes(write, list))
    requires forall i :: 0 <= i < |list| ==> Reads(b, read, write, list[i]) && |write(list[i])| >= least
    ensures ListAt(b, read, least, slack, c) == Ok(list, Skip(c, |ListBytes(write, list)|))
  {
    hide Little, Unsigned, Pow256, Reads;
    ReadyApart(b, c, Word(|list|), WriteAll(write, list));
    ReadsNumber(b, c, |list|, 4);
    ReadsMany(b, read, write, list, Skip(c, 4));
    ListIsLong(write, list, least);
    GuardPasses(|list|, least, Remaining(Skip(c, 4)));
  }

  function ReadParameter(b: Bytes): Cursor -> Read<Parameter> { (c: Cursor) => ParameterAt(b, c) }

  function ReadInstruction(pool: Pool, b: Bytes): Cursor -> Read<Instruction> { (c: Cursor) => InstructionAt(pool, b, c) }

  function WriteInstruction(pool: Pool): Instruction -> Bytes { (i: Instruction) => InstructionBytes(pool, i) }

  function BlockBytes(pool: Pool, x: Block): Bytes {
    Word(x.id) + (ListBytes(ParameterBytes, x.parameters) + (ListBytes(WriteInstruction(pool), x.instructions) +
    TerminatorBytes(x.terminator)))
  }

  predicate BlockFits(pool: Pool, x: Block) {
    && WordFits(x.id) && WordFits(|x.parameters|) && WordFits(|x.instructions|) && TerminatorFits(x.terminator)
    && (forall i | 0 <= i < |x.parameters| :: ParameterFits(x.parameters[i]))
    && (forall i | 0 <= i < |x.instructions| :: InstructionFits(pool, x.instructions[i]))
  }

  function BlockAt(pool: Pool, b: Bytes, c: Cursor): Read<Block> {
    var (id, c) := Unsigned(b, c, 4);
    var (parameters, c) :- ListAt(b, ReadParameter(b), 13, 0, c);
    var (instructions, c) :- ListAt(b, ReadInstruction(pool, b), 39, 1, c);
    var (terminator, c) :- TerminatorAt(b, c);
    Ok(Block(id, parameters, instructions, terminator), c)
  }

  lemma BlockPartsRead(pool: Pool, b: Bytes, x: Block)
    requires BlockFits(pool, x) && |pool| <= INVALID_INDEX
    ensures forall i :: 0 <= i < |x.parameters| ==>
              Reads(b, ReadParameter(b), ParameterBytes, x.parameters[i]) && |ParameterBytes(x.parameters[i])| >= 13
    ensures forall i :: 0 <= i < |x.instructions| ==>
              Reads(b, ReadInstruction(pool, b), WriteInstruction(pool), x.instructions[i]) &&
              |WriteInstruction(pool)(x.instructions[i])| >= 39
  {
    hide InstructionAt, ParameterAt, InstructionFits, ParameterFits, Ready;
    forall i | 0 <= i < |x.parameters| ensures Reads(b, ReadParameter(b), ParameterBytes, x.parameters[i]) {
      forall c | Ready(b, c, ParameterBytes(x.parameters[i]))
        ensures ReadParameter(b)(c) == Ok(x.parameters[i], Skip(c, |ParameterBytes(x.parameters[i])|))
      {
        ReadsParameter(b, c, x.parameters[i]);
      }
    }
    forall i | 0 <= i < |x.instructions| ensures Reads(b, ReadInstruction(pool, b), WriteInstruction(pool), x.instructions[i]) {
      forall c | Ready(b, c, WriteInstruction(pool)(x.instructions[i]))
        ensures ReadInstruction(pool, b)(c) == Ok(x.instructions[i], Skip(c, |WriteInstruction(pool)(x.instructions[i])|))
      {
        ReadsInstruction(pool, b, c, x.instructions[i]);
      }
    }
  }

  lemma ReadsBlock(pool: Pool, b: Bytes, c: Cursor, x: Block)
    requires BlockFits(pool, x) && |pool| <= INVALID_INDEX && Ready(b, c, BlockBytes(pool, x))
    ensures BlockAt(pool, b, c) == Ok(x, Skip(c, |BlockBytes(pool, x)|))
  {
    BlockPartsRead(pool, b, x);
    hide Little, Unsigned, Pow256, Ready, ListAt, ListBytes, TerminatorAt, TerminatorBytes, Reads, InstructionBytes,
        ParameterBytes;
    var y, z, t := ListBytes(ParameterBytes, x.parameters), ListBytes(WriteInstruction(pool), x.instructions),
        TerminatorBytes(x.terminator);
    ReadyApart(b, c, Word(x.id), y + (z + t));
    ReadsNumber(b, c, x.id, 4);
    var c1 := Skip(c, 4);
    ReadyApart(b, c1, y, z + t);
    ReadsList(b, ReadParameter(b), ParameterBytes, 13, 0, c1, x.parameters);
    var c2 := Skip(c1, |y|);
    ReadyApart(b, c2, z, t);
    ReadsList(b, ReadInstruction(pool, b), WriteInstruction(pool), 39, 1, c2, x.instructions);
    ReadsTerminator(b, Skip(c2, |z|), x.terminator);
  }

  function HandlerBytes(x: Handler): Bytes {
    WordsBytes(x.protectedBlocks) + (Word(x.handlerBlock) + (Little(x.catchTypeId, 8) + Word(x.exceptionLocal)))
  }

  predicate HandlerFits(x: Handler) {
    WordsFit(x.protectedBlocks) && WordFits(x.handlerBlock) && x.catchTypeId < Pow256(8) && WordFits(x.exceptionLocal)
  }

  function HandlerAt(b: Bytes, c: Cursor): Read<Handler> {
    var (protectedBlocks, c) :- ReadWords(b, c);
    var (handlerBlock, c) := Unsigned(b, c, 4);
    var (catchTypeId, c) := Unsigned(b, c, 8);
    var (exceptionLocal, c) := Unsigned(b, c, 4);
    Ok(Handler(protectedBlocks, handlerBlock, catchTypeId, exceptionLocal), c)
  }

  lemma ReadsHandler(b: Bytes, c: Cursor, x: Handler)
    requires HandlerFits(x) && Ready(b, c, HandlerBytes(x))
    ensures HandlerAt(b, c) == Ok(x, Skip(c, |HandlerBytes(x)|))
  {
    hide Little, Unsigned, Pow256, Ready, ReadWords, WordsBytes, WordsFit;
    var y := Little(x.catchTypeId, 8) + Word(x.exceptionLocal);
    ReadyApart(b, c, WordsBytes(x.protectedBlocks), Word(x.handlerBlock) + y);
    ReadsWords(b, c, x.protectedBlocks);
    var c1 := Skip(c, |WordsBytes(x.protectedBlocks)|);
    ReadyApart(b, c1, Word(x.handlerBlock), y);
    ReadsNumber(b, c1, x.handlerBlock, 4);
    ReadyApart(b, Skip(c1, 4), Little(x.catchTypeId, 8), Word(x.exceptionLocal));
    ReadsNumber(b, Skip(c1, 4), x.catchTypeId, 8);
    ReadsNumber(b, Skip(c1, 12), x.exceptionLocal, 4);
  }

  // ----- bodies -----

  function ReadBlock(pool: Pool, b: Bytes): Cursor -> Read<Block> { (c: Cursor) => BlockAt(pool, b, c) }

  function WriteBlock(pool: Pool): Block -> Bytes { (x: Block) => BlockBytes(pool, x) }

  function ReadHandler(b: Bytes): Cursor -> Read<Handler> { (c: Cursor) => HandlerAt(b, c) }

  /** Versions from 0.9 on carry exception metadata. */
  function BodyBytes(pool: Pool, metadata: bool, f: Body): Bytes {
    ListBytes(WriteBlock(pool), f.blocks) + if metadata then ListBytes(HandlerBytes, f.handlers) else []
  }

  predicate BodyFits(pool: Pool, metadata: bool, f: Body) {
    && WordFits(|f.blocks|) && WordFits(|f.handlers|) && (!metadata ==> f.handlers == [])
    && (forall i | 0 <= i < |f.blocks| :: BlockFits(pool, f.blocks[i]))
    && (forall i | 0 <= i < |f.handlers| :: HandlerFits(f.handlers[i]))
  }

  function BodyAt(pool: Pool, metadata: bool, b: Bytes, c: Cursor): Read<Body> {
    var (blocks, c) :- ListAt(b, ReadBlock(pool, b), 37, 1, c);
    var (handlers, c) :- if metadata then ListAt(b, ReadHandler(b), 20, 1, c) else Ok([], c);
    if !c.valid || c.position != c.end then Refused else Ok(Body(blocks, handlers), c)
  }

  lemma BodyPartsRead(pool: Pool, metadata: bool, b: Bytes, f: Body)
    requires BodyFits(pool, metadata, f) && |pool| <= INVALID_INDEX
    ensures forall i :: 0 <= i < |f.blocks| ==>
              Reads(b, ReadBlock(pool, b), WriteBlock(pool), f.blocks[i]) && |WriteBlock(pool)(f.blocks[i])| >= 37
    ensures forall i :: 0 <= i < |f.handlers| ==>
              Reads(b, ReadHandler(b), HandlerBytes, f.handlers[i]) && |HandlerBytes(f.handlers[i])| >= 20
  {
    hide BlockAt, HandlerAt, BlockFits, HandlerFits, Ready;
    forall i | 0 <= i < |f.blocks| ensures Reads(b, ReadBlock(pool, b), WriteBlock(pool), f.blocks[i]) {
      forall c | Ready(b, c, WriteBlock(pool)(f.blocks[i]))
        ensures ReadBlock(pool, b)(c) == Ok(f.blocks[i], Skip(c, |WriteBlock(pool)(f.blocks[i])|))
      {
        ReadsBlock(pool, b, c, f.blocks[i]);
      }
    }
    forall i | 0 <= i < |f.handlers| ensures Reads(b, ReadHandler(b), HandlerBytes, f.handlers[i]) {
      forall c | Ready(b, c, HandlerBytes(f.handlers[i]))
        ensures ReadHandler(b)(c) == Ok(f.handlers[i], Skip(c, |HandlerBytes(f.handlers[i])|))
      {
        ReadsHandler(b, c, f.handlers[i]);
      }
    }
  }

  lemma ReadsBody(pool: Pool, metadata: bool, b: Bytes, c: Cursor, f: Body)
    requires BodyFits(pool, metadata, f) && |pool| <= INVALID_INDEX
    requires Ready(b, c, BodyBytes(pool, metadata, f)) && c.end == c.position + |BodyBytes(pool, metadata, f)|
    ensures BodyAt(pool, metadata, b, c) == Ok(f, Skip(c, |BodyBytes(pool, metadata, f)|))
  {
    BodyPartsRead(pool, metadata, b, f);
    hide Ready, ListAt, ListBytes, Reads, HandlerBytes, BlockBytes;
    var y := ListBytes(WriteBlock(pool), f.blocks);
    ReadyApart(b, c, y, if metadata then ListBytes(HandlerBytes, f.handlers) else []);
    ReadsList(b, ReadBlock(pool, b), WriteBlock(pool), 37, 1, c, f.blocks);
    if metadata { ReadsList(b, ReadHandler(b), HandlerBytes, 20, 1, Skip(c, |y|), f.handlers); }
    ReadyIsValid(b, c, y);
  }

  lemma ReadyIsValid(b: Bytes, c: Cursor, e: Bytes)
    requires Ready(b, c, e)
    ensures c.valid
  {
  }

  // ----- the code section -----

  datatype Range = Range(offset: nat, size: nat)

  function Section(pool: Pool, metadata: bool, bodies: seq<Body>): Bytes {
    if bodies == [] then [] else Section(pool, metadata, bodies[..|bodies| - 1]) + BodyBytes(pool, metadata, bodies[|bodies| - 1])
  }

  const WORD_LIMIT: nat := 0x1_0000_0000

  /** A conversion to std::uint32_t. */
  function Truncated(n: int): nat { n % WORD_LIMIT }

  /** The range of a body, from the sizes of the section before and after it was written. */
  function RangeOf(before: nat, after: nat): Range {
    Range(Truncated(before), Truncated(Truncated(after) - Truncated(before)))
  }

  lemma RangeIsExact(before: nat, after: nat)
    requires before <= after < WORD_LIMIT
    ensures RangeOf(before, after) == Range(before, after - before)
  {
  }

  /** codeRanges: where each body came to stand. */
  function Ranges(pool: Pool, metadata: bool, bodies: seq<Body>): seq<Range> {
    if bodies == [] then []
    else
      var before := bodies[..|bodies| - 1];
      Ranges(pool, metadata, before) + [RangeOf(|Section(pool, metadata, before)|, |Section(pool, metadata, bodies)|)]
  }

  lemma OneMoreBody(pool: Pool, metadata: bool, bodies: seq<Body>, k: nat)
    requires k < |bodies|
    ensures Section(pool, metadata, bodies[..k + 1]) == Section(pool, metadata, bodies[..k]) + BodyBytes(pool, metadata,
        bodies[k])
    ensures Ranges(pool, metadata, bodies[..k + 1]) == Ranges(pool, metadata, bodies[..k]) +
            [RangeOf(|Section(pool, metadata, bodies[..k])|, |Section(pool, metadata, bodies[..k + 1])|)]
  {
    hide BodyBytes, RangeOf;
    assert bodies[..k + 1][..k] == bodies[..k];
  }

  predicate Precedes(a: Range, b: Range) { a.offset < b.offset || (a.offset == b.offset && a.size <= b.size) }

  function Placed(ranges: seq<Range>, r: Range): seq<Range> {
    if ranges == [] || Precedes(ranges[|ranges| - 1], r) then ranges + [r]
    else Placed(ranges[..|ranges| - 1], r) + [ranges[|ranges| - 1]]
  }

  /** std::sort on (offset, size). */
  function SortedRanges(ranges: seq<Range>): seq<Range> {
    if ranges == [] then [] else Placed(SortedRanges(ranges[..|ranges| - 1]), ranges[|ranges| - 1])
  }

  predicate Inside(section: nat, r: Range) { r.offset <= section && r.size <= section - r.offset }

  predicate Disjoint(sorted: seq<Range>) {
    forall k | 0 < k < |sorted| :: sorted[k - 1].offset + sorted[k - 1].size <= sorted[k].offset
  }

  /** Neither range reaches into the other. */
  predicate Apart(a: Range, b: Range) { a.offset + a.size <= b.offset || b.offset + b.size <= a.offset }

  predicate ApartFromAll(ranges: seq<Range>, r: Range) { forall k | 0 <= k < |ranges| :: Apart(ranges[k], r) }

  ghost predicate PairwiseApart(ranges: seq<Range>) {
    forall k | 0 <= k < |ranges| :: ApartFromAll(ranges[..k], ranges[k])
  }

  lemma ApartFromOneMore(ranges: seq<Range>, last: Range, r: Range)
    ensures ApartFromAll(ranges + [last], r) <==> ApartFromAll(ranges, r) && Apart(last, r)
  {
    var all := ranges + [last];
    if ApartFromAll(all, r) {
      forall k | 0 <= k < |ranges| ensures Apart(ranges[k], r) { assert ranges[k] == all[k]; }
      assert all[|ranges|] == last;
    }
  }

  lemma OneMoreApart(ranges: seq<Range>, last: Range)
    ensures PairwiseApart(ranges + [last]) <==> PairwiseApart(ranges) && ApartFromAll(ranges, last)
  {
    hide ApartFromAll;
    var all := ranges + [last];
    assert all[..|ranges|] == ranges;
    assert forall k :: 0 <= k < |ranges| ==> all[..k] == ranges[..k] && all[k] == ranges[k];
  }

  lemma {:induction false} PlacedFrom(ranges: seq<Range>, r: Range, x: Range)
    ensures ApartFromAll(Placed(ranges, r), x) <==> ApartFromAll(ranges, x) && Apart(r, x)
  {
    hide ApartFromAll, Apart, Precedes;
    ApartFromOneMore(ranges, r, x);
    if ranges != [] {
      var n := |ranges| - 1;
      assert ranges[..n] + [ranges[n]] == ranges;
      PlacedFrom(ranges[..n], r, x);
      ApartFromOneMore(ranges[..n], ranges[n], x);
      ApartFromOneMore(Placed(ranges[..n], r), ranges[n], x);
    }
  }

  lemma {:induction false} PlacedApart(ranges: seq<Range>, r: Range)
    ensures PairwiseApart(Placed(ranges, r)) <==> PairwiseApart(ranges) && ApartFromAll(ranges, r)
  {
    hide PairwiseApart, ApartFromAll, Precedes;
    OneMoreApart(ranges, r);
    if ranges != [] {
      var n := |ranges| - 1;
      assert ranges[..n] + [ranges[n]] == ranges;
      PlacedApart(ranges[..n], r);
      PlacedFrom(ranges[..n], r, ranges[n]);
      OneMoreApart(ranges[..n], ranges[n]);
      OneMoreApart(Placed(ranges[..n], r), ranges[n]);
      ApartFromOneMore(ranges[..n], ranges[n], r);
    }
  }

  predicate InOrder(ranges: seq<Range>) { forall k | 0 < k < |ranges| :: Precedes(ranges[k - 1], ranges[k]) }

  lemma {:induction false} PlacedInOrder(ranges: seq<Range>, r: Range)
    requires InOrder(ranges)
    ensures InOrder(Placed(ranges, r)) && |Placed(ranges, r)| == |ranges| + 1
    ensures var last := Placed(ranges, r)[|ranges|]; last == r || (ranges != [] && last == ranges[|ranges| - 1] && Precedes(r, last))
  {
    if ranges != [] && !Precedes(ranges[|ranges| - 1], r) { PlacedInOrder(ranges[..|ranges| - 1], r); }
  }

  lemma {:induction false} SortedApart(ranges: seq<Range>)
    ensures InOrder(SortedRanges(ranges))
    ensures PairwiseApart(SortedRanges(ranges)) <==> PairwiseApart(ranges)
    ensures forall x :: ApartFromAll(SortedRanges(ranges), x) <==> ApartFromAll(ranges, x)
  {
    if ranges != [] {
      hide PairwiseApart, ApartFromAll, Apart, InOrder, Placed;
      var n := |ranges| - 1;
      var before := SortedRanges(ranges[..n]);
      assert ranges[..n] + [ranges[n]] == ranges;
      SortedApart(ranges[..n]);
      PlacedInOrder(before, ranges[n]);
      PlacedApart(before, ranges[n]);
      OneMoreApart(ranges[..n], ranges[n]);
      forall x ensures ApartFromAll(SortedRanges(ranges), x) <==> ApartFromAll(ranges, x) {
        PlacedFrom(before, ranges[n], x);
        ApartFromOneMore(ranges[..n], ranges[n], x);
      }
    }
  }

  lemma {:induction false} EndsInOrder(sorted: seq<Range>, i: nat, j: nat)
    requires Disjoint(sorted) && i < j < |sorted|
    ensures sorted[i].offset + sorted[i].size <= sorted[j].offset
    decreases j
  {
    if i < j - 1 { EndsInOrder(sorted, i, j - 1); }
  }

  /** Looking at neighbours in sorted order finds an overlap exactly when some two ranges overlap. */
  lemma OverlapCheckIsExact(ranges: seq<Range>)
    ensures Disjoint(SortedRanges(ranges)) <==> PairwiseApart(ranges)
  {
    var sorted := SortedRanges(ranges);
    SortedApart(ranges);
    if Disjoint(sorted) {
      forall k | 0 <= k < |sorted| ensures ApartFromAll(sorted[..k], sorted[k]) {
        forall i | 0 <= i < k ensures Apart(sorted[..k][i], sorted[k]) { EndsInOrder(sorted, i, k); }
      }
    }
    if PairwiseApart(sorted) {
      forall k | 0 < k < |sorted| ensures sorted[k - 1].offset + sorted[k - 1].size <= sorted[k].offset {
        assert ApartFromAll(sorted[..k], sorted[k]);
        assert Apart(sorted[..k][k - 1], sorted[k]) && Precedes(sorted[k - 1], sorted[k]);
      }
    }
  }

  /** The reader of one body: it ends where the body's range ends. */
  function CursorOf(r: Range): Cursor { Cursor(r.offset, r.offset + r.size, true) }

  function DecodeEach(pool: Pool, metadata: bool, section: Bytes, ranges: seq<Range>): Read<seq<Body>> {
    if ranges == [] then Ok([], Cursor(0, 0, true))
    else
      var n := |ranges| - 1;
      var (before, _) :- DecodeEach(pool, metadata, section, ranges[..n]);
      var (body, c) :- BodyAt(pool, metadata, section, CursorOf(ranges[n]));
      Ok(before + [body], c)
  }

  /** decodeModule's handling of the code section. */
  function DecodeBodies(pool: Pool, metadata: bool, section: Bytes, ranges: seq<Range>): Read<seq<Body>> {
    if !(forall k | 0 <= k < |ranges| :: Inside(|section|, ranges[k])) then Refused
    else if !Disjoint(SortedRanges(ranges)) then Refused
    else DecodeEach(pool, metadata, section, ranges)
  }

  lemma {:induction false} SectionsGrow(pool: Pool, metadata: bool, bodies: seq<Body>, k: nat)
    requires k <= |bodies|
    ensures Section(pool, metadata, bodies[..k]) <= Section(pool, metadata, bodies)
    decreases |bodies| - k
  {
    if k < |bodies| {
      hide Section, BodyBytes;
      OneMoreBody(pool, metadata, bodies, k);
      SectionsGrow(pool, metadata, bodies, k + 1);
    } else {
      assert bodies[..k] == bodies;
    }
  }

  lemma {:induction false} RangePerBody(pool: Pool, metadata: bool, bodies: seq<Body>)
    ensures |Ranges(pool, metadata, bodies)| == |bodies|
  {
    hide Section, RangeOf;
    if bodies != [] { RangePerBody(pool, metadata, bodies[..|bodies| - 1]); }
  }

  lemma {:induction false} RangesAt(pool: Pool, metadata: bool, bodies: seq<Body>, n: nat, k: nat)
    requires k < n <= |bodies|
    ensures |Ranges(pool, metadata, bodies[..n])| == n
    ensures Ranges(pool, metadata, bodies[..n])[k] == RangeOf(|Section(pool, metadata, bodies[..k])|, |Section(pool,
        metadata, bodies[..k + 1])|)
    decreases n
  {
    hide Section, Ranges, RangeOf, BodyBytes;
    OneMoreBody(pool, metadata, bodies, n - 1);
    RangePerBody(pool, metadata, bodies[..n]);
    RangePerBody(pool, metadata, bodies[..n - 1]);
    if k < n - 1 { RangesAt(pool, metadata, bodies, n - 1, k); }
  }

  /** The k-th range of an encoding is where the k-th body stands: the ranges follow one another. */
  lemma RangeIsPlace(pool: Pool, metadata: bool, bodies: seq<Body>, k: nat)
    requires k < |bodies| && |Section(pool, metadata, bodies)| < WORD_LIMIT
    ensures var ranges, before, body := Ranges(pool, metadata, bodies), Section(pool, metadata, bodies[..k]), BodyBytes(pool, metadata, bodies[k]);
            && |ranges| == |bodies| && ranges[k] == Range(|before|, |body|)
            && Section(pool, metadata, bodies[..k + 1]) == before + body && before + body <= Section(pool, metadata, bodies)
  {
    hide Section, Ranges, RangeOf, BodyBytes;
    RangesAt(pool, metadata, bodies, |bodies|, k);
    assert bodies[..|bodies|] == bodies;
    OneMoreBody(pool, metadata, bodies, k);
    SectionsGrow(pool, metadata, bodies, k + 1);
    RangeIsExact(|Section(pool, metadata, bodies[..k])|, |Section(pool, metadata, bodies[..k + 1])|);
  }

  lemma RangesFollow(pool: Pool, metadata: bool, bodies: seq<Body>)
    requires |Section(pool, metadata, bodies)| < WORD_LIMIT
    ensures var ranges := Ranges(pool, metadata, bodies);
            && |ranges| == |bodies|
            && (forall k :: 0 <= k < |ranges| ==> Inside(|Section(pool, metadata, bodies)|, ranges[k]))
            && (forall k :: 0 < k < |ranges| ==> ranges[k - 1].offset + ranges[k - 1].size == ranges[k].offset)
  {
    hide Section, Ranges, RangeOf, BodyBytes;
    var ranges := Ranges(pool, metadata, bodies);
    RangePerBody(pool, metadata, bodies);
    forall k | 0 <= k < |ranges| ensures Inside(|Section(pool, metadata, bodies)|, ranges[k]) {
      RangeIsPlace(pool, metadata, bodies, k);
    }
    forall k | 0 < k < |ranges| ensures ranges[k - 1].offset + ranges[k - 1].size == ranges[k].offset {
      RangeIsPlace(pool, metadata, bodies, k);
      RangeIsPlace(pool, metadata, bodies, k - 1);
    }
  }

  lemma {:induction false} InOrderStays(ranges: seq<Range>)
    requires forall k :: 0 < k < |ranges| ==> Precedes(ranges[k - 1], ranges[k])
    ensures SortedRanges(ranges) == ranges
  {
    if ranges != [] {
      hide Precedes, Placed;
      var n := |ranges| - 1;
      InOrderStays(ranges[..n]);
      assert ranges == ranges[..n] + [ranges[n]];
      PlacedLast(ranges[..n], ranges[n]);
    }
  }

  lemma PlacedLast(ranges: seq<Range>, r: Range)
    requires ranges != [] ==> Precedes(ranges[|ranges| - 1], r)
    ensures Placed(ranges, r) == ranges + [r]
  {
  }

  /** The reader of the range finds the body. */
  predicate Recovers(pool: Pool, metadata: bool, section: Bytes, range: Range, body: Body) {
    var r := BodyAt(pool, metadata, section, CursorOf(range));
    r.Ok? && r.value == body
  }

  lemma {:induction false} DecodesEach(pool: Pool, metadata: bool, section: Bytes, ranges: seq<Range>, bodies: seq<Body>)
    requires |ranges| == |bodies|
    requires forall k :: 0 <= k < |ranges| ==> Recovers(pool, metadata, section, ranges[k], bodies[k])
    ensures var r := DecodeEach(pool, metadata, section, ranges); r.Ok? && r.value == bodies
  {
    hide BodyAt;
    if bodies != [] {
      var n := |bodies| - 1;
      DecodesEach(pool, metadata, section, ranges[..n], bodies[..n]);
      assert bodies == bodies[..n] + [bodies[n]];
      assert Recovers(pool, metadata, section, ranges[n], bodies[n]);
    }
  }

  lemma BodyIsThere(pool: Pool, metadata: bool, bodies: seq<Body>, k: nat)
    requires |pool| <= INVALID_INDEX && forall i :: 0 <= i < |bodies| ==> BodyFits(pool, metadata, bodies[i])
    requires k < |bodies| && |Section(pool, metadata, bodies)| < WORD_LIMIT
    ensures |Ranges(pool, metadata, bodies)| == |bodies|
    ensures Recovers(pool, metadata, Section(pool, metadata, bodies), Ranges(pool, metadata, bodies)[k], bodies[k])
  {
    hide Section, Ranges, BodyBytes, BodyAt, BodyFits;
    RangeIsPlace(pool, metadata, bodies, k);
    var section, before, body := Section(pool, metadata, bodies), Section(pool, metadata, bodies[..k]), BodyBytes(pool,
        metadata, bodies[k]);
    assert section[|before|..|before| + |body|] == body;
    ReadsBody(pool, metadata, section, CursorOf(Range(|before|, |body|)), bodies[k]);
  }

  /** For every list of functions, the decoder gets every block, instruction, terminator and handler
      back from the shared code section: its range and overlap checks pass, and so do its guards. */
  lemma BodiesRoundTrip(pool: Pool, metadata: bool, bodies: seq<Body>)
    requires |pool| <= INVALID_INDEX && forall i :: 0 <= i < |bodies| ==> BodyFits(pool, metadata, bodies[i])
    requires |Section(pool, metadata, bodies)| < WORD_LIMIT
    ensures var r := DecodeBodies(pool, metadata, Section(pool, metadata, bodies), Ranges(pool, metadata, bodies));
            r.Ok? && r.value == bodies
  {
    hide BodyBytes, BodyFits, BodyAt, DecodeEach, Section, Ranges, SortedRanges;
    RangesFollow(pool, metadata, bodies);
    InOrderStays(Ranges(pool, metadata, bodies));
    forall k | 0 <= k < |bodies|
      ensures Recovers(pool, metadata, Section(pool, metadata, bodies), Ranges(pool, metadata, bodies)[k], bodies[k])
    {
      BodyIsThere(pool, metadata, bodies, k);
    }
    DecodesEach(pool, metadata, Section(pool, metadata, bodies), Ranges(pool, metadata, bodies), bodies);
  }
}
