/** Writing and reading function bodies step by step (src/bytecode/BytecodeCodec.cpp:35-148, 289-302,
    800-859, 1645-1786): the reader's fields, the nested loops and the early returns, each shown to do
    what the format says. */
module BodyCodec {
  import opened Options
  import opened Scalars
  import opened Wire
  import opened BodyFormat

  // ----- writing -----

  /** The count and the first k elements were appended. */
  predicate WrittenUpTo<T>(before: Bytes, now: Bytes, write: T -> Bytes, list: seq<T>, k: nat) {
    k <= |list| && now == before + (Word(|list|) + WriteAll(write, list[..k]))
  }

  lemma LoopStarts<T>(before: Bytes, now: Bytes, write: T -> Bytes, list: seq<T>)
    requires now == before + Word(|list|)
    ensures WrittenUpTo(before, now, write, list, 0)
  {
    assert list[..0] == [];
    assert Word(|list|) + [] == Word(|list|);
  }

  lemma LoopContinues<T>(before: Bytes, now: Bytes, after: Bytes, write: T -> Bytes, list: seq<T>, k: nat)
    requires k < |list| && WrittenUpTo(before, now, write, list, k) && after == now + write(list[k])
    ensures WrittenUpTo(before, after, write, list, k + 1)
  {
    hide WriteAll, Word;
    OneMoreWritten(write, list, k);
    assert (before + (Word(|list|) + WriteAll(write, list[..k]))) + write(list[k]) ==
           before + (Word(|list|) + (WriteAll(write, list[..k]) + write(list[k])));
  }

  lemma LoopEnds<T>(before: Bytes, now: Bytes, write: T -> Bytes, list: seq<T>)
    requires WrittenUpTo(before, now, write, list, |list|)
    ensures now == before + ListBytes(write, list)
  {
    assert list[..|list|] == list;
  }

  method WriteRegisters(w: Writer, values: seq<nat>)
    modifies w
    ensures w.bytes == old(w.bytes) + WordsBytes(values)
  {
    hide WriteAll, Little;
    ghost var before := w.bytes;
    w.Unsigned(|values|, 4);
    LoopStarts(before, w.bytes, Word, values);
    for k := 0 to |values|
      invariant WrittenUpTo(before, w.bytes, Word, values, k)
    {
      ghost var now := w.bytes;
      w.Unsigned(values[k], 4);
      LoopContinues(before, now, w.bytes, Word, values, k);
    }
    LoopEnds(before, w.bytes, Word, values);
  }

  method WriteParameters(w: Writer, parameters: seq<Parameter>)
    modifies w
    ensures w.bytes == old(w.bytes) + ListBytes(ParameterBytes, parameters)
  {
    hide WriteAll, Little, TypeTag;
    ghost var before := w.bytes;
    w.Unsigned(|parameters|, 4);
    LoopStarts(before, w.bytes, ParameterBytes, parameters);
    for k := 0 to |parameters|
      invariant WrittenUpTo(before, w.bytes, ParameterBytes, parameters, k)
    {
      ghost var now := w.bytes;
      w.Unsigned(parameters[k].target, 4);
      w.U8(TypeTag(parameters[k].ty));
      w.Unsigned(parameters[k].typeId, 8);
      assert w.bytes == now + ParameterBytes(parameters[k]);
      LoopContinues(before, now, w.bytes, ParameterBytes, parameters, k);
    }
    LoopEnds(before, w.bytes, ParameterBytes, parameters);
  }

  method EncodeInstruction(w: Writer, pool: Pool, i: Instruction)
    modifies w
    ensures w.bytes == old(w.bytes) + InstructionBytes(pool, i)
  {
    hide Little, WordsBytes, TypeTag, Flags, StringIndex, Bits64;
    ghost var before := w.bytes;
    w.U8(i.opcode);
    w.Unsigned(i.result, 4);
    WriteRegisters(w, i.operands);
    w.Unsigned(i.index, 4);
    w.Unsigned(i.typeIndex, 4);
    assert w.bytes == before + HeadBytes(i);
    ghost var now := w.bytes;
    w.U8(TypeTag(i.elementType));
    w.Unsigned(i.elementTypeId, 8);
    w.Unsigned(Bits64(i.integerImmediate), 8);
    w.Unsigned(i.doubleImmediate, 8);
    w.U8(Flags(i));
    w.Unsigned(StringIndex(pool, i), 4);
    assert w.bytes == now + TailBytes(pool, i);
    Regroup(before, HeadBytes(i), TailBytes(pool, i));
  }

  method WriteInstructions(w: Writer, pool: Pool, instructions: seq<Instruction>)
    modifies w
    ensures w.bytes == old(w.bytes) + ListBytes(WriteInstruction(pool), instructions)
  {
    hide WriteAll, Little, InstructionBytes;
    ghost var before := w.bytes;
    w.Unsigned(|instructions|, 4);
    LoopStarts(before, w.bytes, WriteInstruction(pool), instructions);
    for k := 0 to |instructions|
      invariant WrittenUpTo(before, w.bytes, WriteInstruction(pool), instructions, k)
    {
      ghost var now := w.bytes;
      EncodeInstruction(w, pool, instructions[k]);
      LoopContinues(before, now, w.bytes, WriteInstruction(pool), instructions, k);
    }
    LoopEnds(before, w.bytes, WriteInstruction(pool), instructions);
  }

  method WriteTerminator(w: Writer, t: Terminator)
    modifies w
    ensures w.bytes == old(w.bytes) + TerminatorBytes(t)
  {
    hide Little, WordsBytes;
    ghost var before := w.bytes;
    w.U8(t.kind);
    w.Unsigned(t.condition, 4);
    w.Unsigned(t.value, 4);
    w.Unsigned(t.target, 4);
    w.Unsigned(t.falseTarget, 4);
    WriteRegisters(w, t.arguments);
    WriteRegisters(w, t.falseArguments);
    assert w.bytes == before + TerminatorBytes(t);
  }

  method WriteBlocks(w: Writer, pool: Pool, blocks: seq<Block>)
    modifies w
    ensures w.bytes == old(w.bytes) + ListBytes(WriteBlock(pool), blocks)
  {
    hide WriteAll, Little, ListBytes, TerminatorBytes;
    ghost var before := w.bytes;
    w.Unsigned(|blocks|, 4);
    LoopStarts(before, w.bytes, WriteBlock(pool), blocks);
    for k := 0 to |blocks|
      invariant WrittenUpTo(before, w.bytes, WriteBlock(pool), blocks, k)
    {
      ghost var now := w.bytes;
      w.Unsigned(blocks[k].id, 4);
      WriteParameters(w, blocks[k].parameters);
      WriteInstructions(w, pool, blocks[k].instructions);
      WriteTerminator(w, blocks[k].terminator);
      assert w.bytes == now + WriteBlock(pool)(blocks[k]);
      LoopContinues(before, now, w.bytes, WriteBlock(pool), blocks, k);
    }
    LoopEnds(before, w.bytes, WriteBlock(pool), blocks);
  }

  method WriteHandlers(w: Writer, handlers: seq<Handler>)
    modifies w
    ensures w.bytes == old(w.bytes) + ListBytes(HandlerBytes, handlers)
  {
    hide WriteAll, Little, WordsBytes;
    ghost var before := w.bytes;
    w.Unsigned(|handlers|, 4);
    LoopStarts(before, w.bytes, HandlerBytes, handlers);
    for k := 0 to |handlers|
      invariant WrittenUpTo(before, w.bytes, HandlerBytes, handlers, k)
    {
      ghost var now := w.bytes;
      WriteRegisters(w, handlers[k].protectedBlocks);
      w.Unsigned(handlers[k].handlerBlock, 4);
      w.Unsigned(handlers[k].catchTypeId, 8);
      w.Unsigned(handlers[k].exceptionLocal, 4);
      assert w.bytes == now + HandlerBytes(handlers[k]);
      LoopContinues(before, now, w.bytes, HandlerBytes, handlers, k);
    }
    LoopEnds(before, w.bytes, HandlerBytes, handlers);
  }

  method WriteBody(w: Writer, pool: Pool, metadata: bool, f: Body)
    modifies w
    ensures w.bytes == old(w.bytes) + BodyBytes(pool, metadata, f)
  {
    hide ListBytes;
    ghost var before := w.bytes;
    WriteBlocks(w, pool, f.blocks);
    if metadata {
      WriteHandlers(w, f.handlers);
      Regroup(before, ListBytes(WriteBlock(pool), f.blocks), ListBytes(HandlerBytes, f.handlers));
    } else {
      Regroup(before, ListBytes(WriteBlock(pool), f.blocks), []);
    }
  }

  /** encodeModule's loop over the functions. */
  method EncodeBodies(w: Writer, pool: Pool, metadata: bool, bodies: seq<Body>) returns (ranges: seq<Range>)
    requires w.bytes == []
    modifies w
    ensures w.bytes == Section(pool, metadata, bodies) && ranges == Ranges(pool, metadata, bodies)
  {
    ranges := [];
    for k := 0 to |bodies|
      invariant w.bytes == Section(pool, metadata, bodies[..k]) && ranges == Ranges(pool, metadata, bodies[..k])
    {
      hide Section, Ranges, RangeOf, BodyBytes;
      OneMoreBody(pool, metadata, bodies, k);
      var offset := |w.bytes|;
      WriteBody(w, pool, metadata, bodies[k]);
      ranges := ranges + [RangeOf(offset, |w.bytes|)];
    }
    assert bodies[..|bodies|] == bodies;
  }

  // ----- reading -----

  /** A reader of one body. It does not throw: once it lacks a byte it is invalid and yields zeros. */
  class Reader {
    const bytes: Bytes
    const end: nat
    var position: nat
    var valid: bool

    /** Its fields. */
    function Here(): Cursor
      reads this
    {
      Cursor(position, end, valid)
    }

    ghost predicate Good()
      reads this
    {
      position <= end <= |bytes|
    }

    constructor (bytes: Bytes, begin: nat, size: nat)
      ensures Good() && this.bytes == bytes
      ensures Here() == if begin + size <= |bytes| then Cursor(begin, begin + size, true) else Cursor(|bytes|, |bytes|, false)
    {
      this.bytes := bytes;
      if begin > |bytes| || size > |bytes| - begin {
        position, end, valid := |bytes|, |bytes|, false;
      } else {
        position, end, valid := begin, begin + size, true;
      }
    }

    method Take() returns (value: Byte)
      requires Good()
      modifies this
      ensures Good() && (value, Here()) == U8(bytes, old(Here()))
    {
      if !valid || 1 > end - position {
        valid := false;
        return 0;
      }
      value := bytes[position];
      position := position + 1;
    }

    /** u32 and u64. */
    method Number(width: nat) returns (value: nat)
      requires Good()
      modifies this
      ensures Good() && (value, Here()) == Unsigned(bytes, old(Here()), width)
    {
      var weight: nat := 1;
      value := 0;
      ghost var first := Here();
      for k := 0 to width
        invariant Good()
        invariant Unsigned(bytes, first, width) ==
                  (value + weight * Unsigned(bytes, Here(), width - k).0, Unsigned(bytes, Here(), width - k).1)
      {
        var byte := Take();
        OneByteMore(value, weight, byte, Unsigned(bytes, Here(), width - k - 1).0);
        value := value + weight * byte;
        weight := 256 * weight;
      }
    }
  }

  lemma OneByteMore(value: nat, weight: nat, byte: nat, rest: nat)
    ensures value + weight * (byte + 256 * rest) == (value + weight * byte) + (256 * weight) * rest
  {
  }

  /** What a reading method answers; the position is the reader's own. */
  datatype Answer<T> = Invalid | Done(value: T) {
    predicate IsFailure() { Invalid? }

    function PropagateFailure<U>(): Answer<U>
      requires Invalid?
    {
      Invalid
    }

    function Extract(): T
      requires Done?
    {
      value
    }
  }

  predicate Gives<T(==)>(answer: Answer<T>, here: Cursor, read: Read<T>) {
    match read
    case Refused => answer == Invalid
    case Ok(value, next) => answer == Done(value) && here == next
  }

  /** What was read, and then the rest. */
  function Continued<T>(list: seq<T>, rest: Read<seq<T>>): Read<seq<T>> {
    match rest
    case Refused => Refused
    case Ok(more, next) => Ok(list + more, next)
  }

  lemma NothingRead<T>(rest: Read<seq<T>>)
    ensures Continued([], rest) == rest
  {
    if rest.Ok? { assert [] + rest.value == rest.value; }
  }

  lemma OneMoreRead<T>(read: Cursor -> Read<T>, c: Cursor, n: nat, list: seq<T>)
    requires n > 0
    ensures Continued(list, ReadMany(read, c, n)) ==
            (match read(c)
             case Refused => Refused
             case Ok(value, next) => Continued(list + [value], ReadMany(read, next, n - 1)))
  {
    if read(c).Ok? {
      var rest := ReadMany(read, read(c).next, n - 1);
      if rest.Ok? { assert list + ([read(c).value] + rest.value) == (list + [read(c).value]) + rest.value; }
    }
  }

  lemma NothingLeft<T>(read: Cursor -> Read<T>, c: Cursor, list: seq<T>)
    ensures Continued(list, ReadMany(read, c, 0)) == Ok(list, c)
  {
    assert list + [] == list;
  }

  method ReadRegisters(r: Reader) returns (answer: Answer<seq<nat>>)
    requires r.Good()
    modifies r
    ensures r.Good() && Gives(answer, r.Here(), ReadWords(r.bytes, old(r.Here())))
  {
    hide Unsigned, ReadMany, Continued;
    var n := r.Number(4);
    if !r.valid || n > Remaining(r.Here()) / 4 { return Invalid; }
    var list := [];
    ghost var first := r.Here();
    ghost var all := ReadMany(ReadWord(r.bytes), first, n);
    NothingRead(all);
    for k := 0 to n
      invariant r.Good() && all == Continued(list, ReadMany(ReadWord(r.bytes), r.Here(), n - k))
    {
      OneMoreRead(ReadWord(r.bytes), r.Here(), n - k, list);
      var value := r.Number(4);
      list := list + [value];
    }
    NothingLeft(ReadWord(r.bytes), r.Here(), list);
    WordsStayValid(r.bytes, first, n);
    if !r.valid { return Invalid; }
    answer := Done(list);
  }

  lemma {:induction false} NumberStaysValid(b: Bytes, c: Cursor, width: nat)
    requires c.valid && c.position + width <= c.end <= |b|
    ensures Unsigned(b, c, width).1 == c.(position := c.position + width)
    decreases width
  {
    if width > 0 { NumberStaysValid(b, U8(b, c).1, width - 1); }
  }

  /** Where the count passes the guard, no word is missing. */
  lemma {:induction false} WordsStayValid(b: Bytes, c: Cursor, n: nat)
    requires c.valid && c.position + 4 * n <= c.end <= |b|
    ensures var r := ReadMany(ReadWord(b), c, n); r.Ok? && r.next.valid
    decreases n
  {
    if n > 0 {
      hide Unsigned;
      NumberStaysValid(b, c, 4);
      WordsStayValid(b, c.(position := c.position + 4), n - 1);
    }
  }

  method ReadParameters(r: Reader) returns (answer: Answer<seq<Parameter>>)
    requires r.Good()
    modifies r
    ensures r.Good() && Gives(answer, r.Here(), ListAt(r.bytes, ReadParameter(r.bytes), 13, 0, old(r.Here())))
  {
    hide U8, TypeOfTag, Unsigned, ReadMany, Continued;
    var n := r.Number(4);
    if !r.valid || n > Remaining(r.Here()) / 13 { return Invalid; }
    var list := [];
    ghost var all := ReadMany(ReadParameter(r.bytes), r.Here(), n);
    NothingRead(all);
    for k := 0 to n
      invariant r.Good() && all == Continued(list, ReadMany(ReadParameter(r.bytes), r.Here(), n - k))
    {
      OneMoreRead(ReadParameter(r.bytes), r.Here(), n - k, list);
      var target := r.Number(4);
      var tag := r.Take();
      var ty := TypeOfTag(tag);
      if ty.None? { return Invalid; }
      var typeId := r.Number(8);
      var value := Parameter(target, ty.value, typeId);
      list := list + [value];
    }
    NothingLeft(ReadParameter(r.bytes), r.Here(), list);
    answer := Done(list);
  }

  method DecodeInstruction(r: Reader, pool: Pool) returns (answer: Answer<Instruction>)
    requires r.Good()
    modifies r
    ensures r.Good() && Gives(answer, r.Here(), InstructionAt(pool, r.bytes, old(r.Here())))
  {
    hide Unsigned, U8, ReadWords, OptionalTypeOfTag, Signed64;
    var opcode := r.Take();
    if opcode > LAST_OPCODE { return Invalid; }
    var result := r.Number(4);
    var operands :- ReadRegisters(r);
    var index := r.Number(4);
    var typeIndex := r.Number(4);
    var tag := r.Take();
    var elementType := OptionalTypeOfTag(tag);
    if elementType.None? { return Invalid; }
    var elementTypeId := r.Number(8);
    var integerImmediate := r.Number(8);
    var doubleImmediate := r.Number(8);
    var flags := r.Take();
    if flags > 3 { return Invalid; }
    var stringIndex := r.Number(4);
    var stringImmediate := "";
    if opcode == CONSTANT_STRING {
      if stringIndex >= |pool| { return Invalid; }
      stringImmediate := pool[stringIndex];
    } else if stringIndex != INVALID_INDEX {
      return Invalid;
    }
    answer := Done(Instruction(
      opcode, result, operands, index, typeIndex, elementType.value, elementTypeId, Signed64(integerImmediate), doubleImmediate,
      flags % 2 == 1, flags / 2 == 0, stringImmediate));
  }

  method ReadInstructions(r: Reader, pool: Pool) returns (answer: Answer<seq<Instruction>>)
    requires r.Good()
    modifies r
    ensures r.Good() && Gives(answer, r.Here(), ListAt(r.bytes, ReadInstruction(pool, r.bytes), 39, 1, old(r.Here())))
  {
    hide InstructionAt, Unsigned, ReadMany, Continued;
    var n := r.Number(4);
    if !r.valid || n > Remaining(r.Here()) / 39 + 1 { return Invalid; }
    var list := [];
    ghost var all := ReadMany(ReadInstruction(pool, r.bytes), r.Here(), n);
    NothingRead(all);
    for k := 0 to n
      invariant r.Good() && all == Continued(list, ReadMany(ReadInstruction(pool, r.bytes), r.Here(), n - k))
    {
      OneMoreRead(ReadInstruction(pool, r.bytes), r.Here(), n - k, list);
      var value :- DecodeInstruction(r, pool);
      list := list + [value];
    }
    NothingLeft(ReadInstruction(pool, r.bytes), r.Here(), list);
    answer := Done(list);
  }

  method ReadTerminator(r: Reader) returns (answer: Answer<Terminator>)
    requires r.Good()
    modifies r
    ensures r.Good() && Gives(answer, r.Here(), TerminatorAt(r.bytes, old(r.Here())))
  {
    hide Unsigned, U8, ReadWords;
    var kind := r.Take();
    if kind > LAST_TERMINATOR { return Invalid; }
    var condition := r.Number(4);
    var value := r.Number(4);
    var target := r.Number(4);
    var falseTarget := r.Number(4);
    var arguments :- ReadRegisters(r);
    var falseArguments :- ReadRegisters(r);
    answer := Done(Terminator(kind, condition, value, target, falseTarget, arguments, falseArguments));
  }

  method DecodeBlock(r: Reader, pool: Pool) returns (answer: Answer<Block>)
    requires r.Good()
    modifies r
    ensures r.Good() && Gives(answer, r.Here(), BlockAt(pool, r.bytes, old(r.Here())))
  {
    hide Unsigned, ListAt, TerminatorAt;
    var id := r.Number(4);
    var parameters :- ReadParameters(r);
    var instructions :- ReadInstructions(r, pool);
    var terminator :- ReadTerminator(r);
    answer := Done(Block(id, parameters, instructions, terminator));
  }

  method ReadBlocks(r: Reader, pool: Pool) returns (answer: Answer<seq<Block>>)
    requires r.Good()
    modifies r
    ensures r.Good() && Gives(answer, r.Here(), ListAt(r.bytes, ReadBlock(pool, r.bytes), 37, 1, old(r.Here())))
  {
    hide BlockAt, Unsigned, ReadMany, Continued;
    var n := r.Number(4);
    if !r.valid || n > Remaining(r.Here()) / 37 + 1 { return Invalid; }
    var list := [];
    ghost var all := ReadMany(ReadBlock(pool, r.bytes), r.Here(), n);
    NothingRead(all);
    for k := 0 to n
      invariant r.Good() && all == Continued(list, ReadMany(ReadBlock(pool, r.bytes), r.Here(), n - k))
    {
      OneMoreRead(ReadBlock(pool, r.bytes), r.Here(), n - k, list);
      var value :- DecodeBlock(r, pool);
      list := list + [value];
    }
    NothingLeft(ReadBlock(pool, r.bytes), r.Here(), list);
    answer := Done(list);
  }

  method ReadHandlers(r: Reader) returns (answer: Answer<seq<Handler>>)
    requires r.Good()
    modifies r
    ensures r.Good() && Gives(answer, r.Here(), ListAt(r.bytes, ReadHandler(r.bytes), 20, 1, old(r.Here())))
  {
    hide ReadWords, Unsigned, ReadMany, Continued;
    var n := r.Number(4);
    if !r.valid || n > Remaining(r.Here()) / 20 + 1 { return Invalid; }
    var list := [];
    ghost var all := ReadMany(ReadHandler(r.bytes), r.Here(), n);
    NothingRead(all);
    for k := 0 to n
      invariant r.Good() && all == Continued(list, ReadMany(ReadHandler(r.bytes), r.Here(), n - k))
    {
      OneMoreRead(ReadHandler(r.bytes), r.Here(), n - k, list);
      var protectedBlocks :- ReadRegisters(r);
      var handlerBlock := r.Number(4);
      var catchTypeId := r.Number(8);
      var exceptionLocal := r.Number(4);
      var value := Handler(protectedBlocks, handlerBlock, catchTypeId, exceptionLocal);
      list := list + [value];
    }
    NothingLeft(ReadHandler(r.bytes), r.Here(), list);
    answer := Done(list);
  }

  method ReadBody(r: Reader, pool: Pool, metadata: bool) returns (answer: Answer<Body>)
    requires r.Good()
    modifies r
    ensures r.Good() && Gives(answer, r.Here(), BodyAt(pool, metadata, r.bytes, old(r.Here())))
  {
    hide ListAt;
    var blocks :- ReadBlocks(r, pool);
    var handlers := [];
    if metadata { handlers :- ReadHandlers(r); }
    if !r.valid || r.position != r.end { return Invalid; }
    answer := Done(Body(blocks, handlers));
  }

  /** The loops of decodeModule over the code section. */
  method DecodeCode(pool: Pool, metadata: bool, section: Bytes, ranges: seq<Range>) returns (r: Read<seq<Body>>)
    ensures r == DecodeBodies(pool, metadata, section, ranges)
  {
    hide BodyAt, SortedRanges;
    for k := 0 to |ranges|
      invariant forall j :: 0 <= j < k ==> Inside(|section|, ranges[j])
    {
      if ranges[k].offset > |section| || ranges[k].size > |section| - ranges[k].offset { return Refused; }
    }
    var sorted := SortedRanges(ranges);
    var index := 1;
    while index < |sorted|
      invariant forall j :: 0 < j < index && j < |sorted| ==> sorted[j - 1].offset + sorted[j - 1].size <= sorted[j].offset
    {
      if sorted[index - 1].offset + sorted[index - 1].size > sorted[index].offset { return Refused; }
      index := index + 1;
    }
    r := Ok([], Cursor(0, 0, true));
    for k := 0 to |ranges|
      invariant r == DecodeEach(pool, metadata, section, ranges[..k]) && r.Ok?
    {
      OneMoreRange(pool, metadata, section, ranges, k);
      var reader := new Reader(section, ranges[k].offset, ranges[k].size);
      var body := ReadBody(reader, pool, metadata);
      if body.Invalid? {
        RefusedForGood(pool, metadata, section, ranges, k + 1);
        return Refused;
      }
      r := Ok(r.value + [body.value], reader.Here());
    }
    assert ranges[..|ranges|] == ranges;
  }

  lemma OneMoreRange(pool: Pool, metadata: bool, section: Bytes, ranges: seq<Range>, k: nat)
    requires k < |ranges|
    ensures var before, body := DecodeEach(pool, metadata, section, ranges[..k]), BodyAt(pool, metadata, section, CursorOf(ranges[k]));
            DecodeEach(pool, metadata, section, ranges[..k + 1]) ==
            (if before.Refused? || body.Refused? then Refused else Ok(before.value + [body.value], body.next))
  {
    hide BodyAt;
    assert ranges[..k + 1][..k] == ranges[..k];
  }

  lemma {:induction false} RefusedForGood(pool: Pool, metadata: bool, section: Bytes, ranges: seq<Range>, k: nat)
    requires k <= |ranges| && DecodeEach(pool, metadata, section, ranges[..k]).Refused?
    ensures DecodeEach(pool, metadata, section, ranges).Refused?
    decreases |ranges| - k
  {
    if k < |ranges| {
      OneMoreRange(pool, metadata, section, ranges, k);
      RefusedForGood(pool, metadata, section, ranges, k + 1);
    } else {
      assert ranges[..k] == ranges;
    }
  }
}
