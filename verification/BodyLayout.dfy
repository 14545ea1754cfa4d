/** Where each field of a function body stands in the code section (src/bytecode/BytecodeCodec.cpp:151-221,
    289-302, 800-859), independent of how BodyFormat puts the parts together. */
module BodyLayout {
  import opened Scalars
  import opened Wire
  import opened WireLayout
  import opened BodyFormat

  // ----- register lists and types -----

  predicate HasWords(b: Bytes, p: nat, list: seq<nat>) {
    HasList(b, p, (p, n) => Has4(b, p, n), (n: nat) => 4, list)
  }

  lemma StandsWords(b: Bytes, p: nat, list: seq<nat>)
    ensures Stands(b, p, WordsBytes(list)) <==> HasWords(b, p, list)
    ensures |WordsBytes(list)| == 4 + 4 * |list|
  {
    hide HasList, Has4, Stands, WriteCounted, Little;
    var fits, has, size := (n: nat) => true, (p: nat, n: nat) => Has4(b, p, n), (n: nat) => 4;
    forall p: nat, n: nat ensures Stands(b, p, Word(n)) <==> has(p, n) {
      Stands4(b, p, n);
    }
    assert Described(b, Word, fits, has, size);
    StandsList(b, p, Word, fits, has, size, list);
    EqualSizes(size, 4, list);
    CountedWords(list);
  }

  lemma CountedWords(list: seq<nat>)
    ensures WriteCounted(Word, list) == WordsBytes(list)
  {
  }

  predicate HasType(b: Bytes, p: nat, t: PrimitiveType) {
    p < |b| &&
    match b[p]
    case 0 => t.Void?
    case 1 => t.Bool?
    case 2 => t.Int?
    case 3 => t.String?
    case 4 => t.Object?
    case 5 => t.Null?
    case 6 => t.Array?
    case 7 => t.Handle?
    case 8 => t.Long?
    case 9 => t.Double?
    case 10 => t.Struct?
    case 11 => t.Enum?
    case 12 => t.Byte?
    case 13 => t.SByte?
    case 14 => t.Short?
    case 15 => t.UShort?
    case 16 => t.UInt?
    case 17 => t.ULong?
    case 18 => t.Float?
    case 19 => t.Char?
    case 0xff => t.ErrorType?
    case _ => false
  }

  lemma StandsType(b: Bytes, p: nat, t: PrimitiveType)
    ensures Stands(b, p, [TypeTag(t)]) <==> HasType(b, p, t)
  {
    StandsOne(b, p, TypeTag(t));
  }

  // ----- instructions -----

  /** A constant string stands as the number of its first place in the pool; other instructions have none. */
  ghost predicate HasString(pool: Pool, b: Bytes, p: nat, i: Instruction) {
    if i.opcode == 4 then exists k: nat :: k < |pool| && pool[k] == i.stringImmediate && i.stringImmediate !in pool[..k] && Has4(b, p, k)
    else Has4(b, p, 0xffff_ffff)
  }

  lemma InPrefix(pool: Pool, n: nat, k: nat)
    requires n < |pool| && k <= |pool|
    ensures n < k ==> pool[n] in pool[..k]
  {
    if n < k { assert pool[..k][n] == pool[n]; }
  }

  lemma {:induction false} FirstPlace(pool: Pool, s: string)
    requires s in pool
    ensures IndexOf(pool, s) < |pool| && pool[IndexOf(pool, s)] == s && s !in pool[..IndexOf(pool, s)]
  {
    if pool[0] != s {
      FirstPlace(pool[1..], s);
      assert pool[..IndexOf(pool, s)] == [pool[0]] + pool[1..][..IndexOf(pool, s) - 1];
    }
  }

  lemma FirstPlaceIsUnique(pool: Pool, s: string, k: nat)
    requires k < |pool| && pool[k] == s && s !in pool[..k]
    ensures k == IndexOf(pool, s)
  {
    FirstPlace(pool, s);
    InPrefix(pool, IndexOf(pool, s), k);
    InPrefix(pool, k, IndexOf(pool, s));
  }

  lemma StandsString(pool: Pool, b: Bytes, p: nat, i: Instruction)
    requires InstructionFits(pool, i)
    ensures Stands(b, p, Word(StringIndex(pool, i))) <==> HasString(pool, b, p, i)
  {
    hide Has4, Little, Stands;
    Stands4(b, p, StringIndex(pool, i));
    if i.opcode == 4 {
      FirstPlace(pool, i.stringImmediate);
      forall k: nat | k < |pool| && pool[k] == i.stringImmediate && i.stringImmediate !in pool[..k]
        ensures k == StringIndex(pool, i)
      {
        FirstPlaceIsUnique(pool, i.stringImmediate, k);
      }
    }
  }

  /** With n operands: the opcode at 0, the result at 1, the operands at 5, index and type index at
      9 + 4n, the element type at 17 + 4n, its id, the integer and the double at 18, 26 and 34 + 4n, the
      two flags at 42 + 4n and the string at 43 + 4n. */
  ghost predicate HasInstruction(pool: Pool, b: Bytes, p: nat, i: Instruction) {
    var r := p + 9 + 4 * |i.operands|;
    && p < |b| && b[p] == i.opcode && Has4(b, p + 1, i.result) && HasWords(b, p + 5, i.operands)
    && Has4(b, r, i.index) && Has4(b, r + 4, i.typeIndex)
    && HasType(b, r + 8, i.elementType) && Has8(b, r + 9, i.elementTypeId)
    && HasLong(b, r + 17, i.integerImmediate) && Has8(b, r + 25, i.doubleImmediate)
    && r + 33 < |b| && b[r + 33] == (if i.boolImmediate then 1 else 0) + (if i.checkedArithmetic then 0 else 2)
    && HasString(pool, b, r + 34, i)
  }

  function InstructionSize(i: Instruction): nat { 47 + 4 * |i.operands| }

  lemma StandsHead(b: Bytes, p: nat, i: Instruction)
    ensures var r := p + 9 + 4 * |i.operands|;
            Stands(b, p, HeadBytes(i)) <==>
            p < |b| && b[p] == i.opcode && Has4(b, p + 1, i.result) && HasWords(b, p + 5, i.operands) &&
            Has4(b, r, i.index) && Has4(b, r + 4, i.typeIndex)
    ensures |HeadBytes(i)| == 17 + 4 * |i.operands|
  {
    hide Has4, HasWords, WordsBytes, Little, Stands;
    var r, y := p + 9 + 4 * |i.operands|, Word(i.index) + Word(i.typeIndex);
    StandsTagged(b, p, i.opcode, Word(i.result) + (WordsBytes(i.operands) + y));
    StandsApart(b, p + 1, Word(i.result), WordsBytes(i.operands) + y);
    StandsApart(b, p + 5, WordsBytes(i.operands), y);
    Stands4(b, p + 1, i.result);
    StandsWords(b, p + 5, i.operands);
    StandsApart(b, r, Word(i.index), Word(i.typeIndex));
    Stands4(b, r, i.index);
    Stands4(b, r + 4, i.typeIndex);
  }

  lemma StandsLong(b: Bytes, p: nat, n: int)
    requires InInt64(n)
    ensures Stands(b, p, Little(Bits64(n), 8)) <==> HasLong(b, p, n)
  {
    hide Has8, Stands, Little;
    Stands8(b, p, Bits64(n));
  }

  lemma StandsTail(pool: Pool, b: Bytes, p: nat, i: Instruction)
    requires InstructionFits(pool, i)
    ensures Stands(b, p, TailBytes(pool, i)) <==>
            HasType(b, p, i.elementType) && Has8(b, p + 1, i.elementTypeId) && HasLong(b, p + 9, i.integerImmediate) &&
            Has8(b, p + 17, i.doubleImmediate) && p + 25 < |b| &&
            b[p + 25] == (if i.boolImmediate then 1 else 0) + (if i.checkedArithmetic then 0 else 2) && HasString(pool, b, p + 26, i)
    ensures |TailBytes(pool, i)| == 30
  {
    hide Has4, Has8, HasLong, HasType, HasString, Little, Stands, TypeTag, StringIndex, Bits64, WordsFit;
    var x5 := [Flags(i)] + Word(StringIndex(pool, i));
    var x4 := Little(i.doubleImmediate, 8) + x5;
    var x3 := Little(Bits64(i.integerImmediate), 8) + x4;
    var x2 := Little(i.elementTypeId, 8) + x3;
    StandsApart(b, p, [TypeTag(i.elementType)], x2);
    StandsType(b, p, i.elementType);
    StandsApart(b, p + 1, Little(i.elementTypeId, 8), x3);
    Stands8(b, p + 1, i.elementTypeId);
    StandsApart(b, p + 9, Little(Bits64(i.integerImmediate), 8), x4);
    StandsLong(b, p + 9, i.integerImmediate);
    StandsApart(b, p + 17, Little(i.doubleImmediate, 8), x5);
    Stands8(b, p + 17, i.doubleImmediate);
    StandsTagged(b, p + 25, Flags(i), Word(StringIndex(pool, i)));
    StandsString(pool, b, p + 26, i);
  }

  lemma StandsInstruction(pool: Pool, b: Bytes, p: nat, i: Instruction)
    requires InstructionFits(pool, i)
    ensures Stands(b, p, InstructionBytes(pool, i)) <==> HasInstruction(pool, b, p, i)
    ensures |InstructionBytes(pool, i)| == InstructionSize(i)
  {
    hide Has4, Has8, HasLong, HasWords, HasType, HasString, Stands, HeadBytes, TailBytes, InstructionFits;
    StandsApart(b, p, HeadBytes(i), TailBytes(pool, i));
    StandsHead(b, p, i);
    StandsTail(pool, b, p + 17 + 4 * |i.operands|, i);
  }

  // ----- blocks and handlers -----

  predicate HasParameter(b: Bytes, p: nat, x: Parameter) {
    Has4(b, p, x.target) && HasType(b, p + 4, x.ty) && Has8(b, p + 5, x.typeId)
  }

  lemma StandsParameter(b: Bytes, p: nat, x: Parameter)
    ensures (Stands(b, p, ParameterBytes(x)) <==> HasParameter(b, p, x)) && |ParameterBytes(x)| == 13
  {
    hide Has4, Has8, HasType, Stands, Little, TypeTag;
    StandsApart(b, p, Word(x.target), [TypeTag(x.ty)] + Little(x.typeId, 8));
    Stands4(b, p, x.target);
    StandsApart(b, p + 4, [TypeTag(x.ty)], Little(x.typeId, 8));
    StandsType(b, p + 4, x.ty);
    Stands8(b, p + 5, x.typeId);
  }

  predicate HasTerminator(b: Bytes, p: nat, t: Terminator) {
    && p < |b| && b[p] == t.kind && Has4(b, p + 1, t.condition) && Has4(b, p + 5, t.value)
    && Has4(b, p + 9, t.target) && Has4(b, p + 13, t.falseTarget)
    && HasWords(b, p + 17, t.arguments) && HasWords(b, p + 21 + 4 * |t.arguments|, t.falseArguments)
  }

  function TerminatorSize(t: Terminator): nat { 25 + 4 * |t.arguments| + 4 * |t.falseArguments| }

  lemma StandsTerminator(b: Bytes, p: nat, t: Terminator)
    ensures Stands(b, p, TerminatorBytes(t)) <==> HasTerminator(b, p, t)
    ensures |TerminatorBytes(t)| == TerminatorSize(t)
  {
    hide Has4, HasWords, WordsBytes, Stands, Little;
    var x5 := WordsBytes(t.arguments) + WordsBytes(t.falseArguments);
    var x4 := Word(t.falseTarget) + x5;
    var x3 := Word(t.target) + x4;
    var x2 := Word(t.value) + x3;
    StandsTagged(b, p, t.kind, Word(t.condition) + x2);
    StandsApart(b, p + 1, Word(t.condition), x2);
    Stands4(b, p + 1, t.condition);
    StandsApart(b, p + 5, Word(t.value), x3);
    Stands4(b, p + 5, t.value);
    StandsApart(b, p + 9, Word(t.target), x4);
    Stands4(b, p + 9, t.target);
    StandsApart(b, p + 13, Word(t.falseTarget), x5);
    Stands4(b, p + 13, t.falseTarget);
    StandsApart(b, p + 17, WordsBytes(t.arguments), WordsBytes(t.falseArguments));
    StandsWords(b, p + 17, t.arguments);
    StandsWords(b, p + 21 + 4 * |t.arguments|, t.falseArguments);
  }

  predicate HasHandler(b: Bytes, p: nat, x: Handler) {
    var r := p + 4 + 4 * |x.protectedBlocks|;
    && HasWords(b, p, x.protectedBlocks)
    && Has4(b, r, x.handlerBlock) && Has8(b, r + 4, x.catchTypeId) && Has4(b, r + 12, x.exceptionLocal)
  }

  function HandlerSize(x: Handler): nat { 20 + 4 * |x.protectedBlocks| }

  lemma StandsHandler(b: Bytes, p: nat, x: Handler)
    ensures (Stands(b, p, HandlerBytes(x)) <==> HasHandler(b, p, x)) && |HandlerBytes(x)| == HandlerSize(x)
  {
    hide Has4, Has8, HasWords, WordsBytes, Stands, Little;
    var r, y := p + 4 + 4 * |x.protectedBlocks|, Little(x.catchTypeId, 8) + Word(x.exceptionLocal);
    StandsApart(b, p, WordsBytes(x.protectedBlocks), Word(x.handlerBlock) + y);
    StandsWords(b, p, x.protectedBlocks);
    StandsApart(b, r, Word(x.handlerBlock), y);
    Stands4(b, r, x.handlerBlock);
    StandsApart(b, r + 4, Little(x.catchTypeId, 8), Word(x.exceptionLocal));
    Stands8(b, r + 4, x.catchTypeId);
    Stands4(b, r + 12, x.exceptionLocal);
  }

  lemma StandsCounted<T(!new)>(
    b: Bytes, p: nat, write: T -> Bytes, fits: T -> bool, has: (nat, T) -> bool, size: T -> nat, list: seq<T>)
    requires Described(b, write, fits, has, size) && AllFit(fits, list)
    ensures Stands(b, p, ListBytes(write, list)) <==> HasList(b, p, has, size, list)
    ensures |ListBytes(write, list)| == 4 + SizeOfAll(size, list)
  {
    hide Described, HasList, Stands;
    StandsList(b, p, write, fits, has, size, list);
  }

  predicate HasParameters(b: Bytes, p: nat, list: seq<Parameter>) {
    HasList(b, p, (p, x) => HasParameter(b, p, x), (x: Parameter) => 13, list)
  }

  lemma StandsParameters(b: Bytes, p: nat, list: seq<Parameter>)
    ensures Stands(b, p, ListBytes(ParameterBytes, list)) <==> HasParameters(b, p, list)
    ensures |ListBytes(ParameterBytes, list)| == 4 + 13 * |list|
  {
    hide ParameterBytes, HasParameter, HasList, ListBytes, Stands;
    var fits, has, size := (x: Parameter) => true, (p, x) => HasParameter(b, p, x), (x: Parameter) => 13;
    forall x ensures |ParameterBytes(x)| == size(x) {
      StandsParameter(b, 0, x);
    }
    forall p: nat, x ensures Stands(b, p, ParameterBytes(x)) <==> has(p, x) {
      StandsParameter(b, p, x);
    }
    assert Described(b, ParameterBytes, fits, has, size);
    StandsCounted(b, p, ParameterBytes, fits, has, size, list);
    EqualSizes(size, 13, list);
  }

  ghost predicate HasInstructions(pool: Pool, b: Bytes, p: nat, list: seq<Instruction>) {
    HasList(b, p, (p, i) => HasInstruction(pool, b, p, i), InstructionSize, list)
  }

  lemma StandsInstructions(pool: Pool, b: Bytes, p: nat, list: seq<Instruction>)
    requires forall i :: 0 <= i < |list| ==> InstructionFits(pool, list[i])
    ensures Stands(b, p, ListBytes(WriteInstruction(pool), list)) <==> HasInstructions(pool, b, p, list)
    ensures |ListBytes(WriteInstruction(pool), list)| == 4 + SizeOfAll(InstructionSize, list)
  {
    hide InstructionBytes, HasInstruction, InstructionFits, InstructionSize, HasList, ListBytes, Stands;
    var write, fits := WriteInstruction(pool), i => InstructionFits(pool, i);
    ghost var has := (p, i) => HasInstruction(pool, b, p, i);
    forall i | fits(i) ensures |write(i)| == InstructionSize(i) {
      StandsInstruction(pool, b, 0, i);
    }
    forall p: nat, i | fits(i) ensures Stands(b, p, write(i)) <==> has(p, i) {
      StandsInstruction(pool, b, p, i);
    }
    assert Described(b, write, fits, has, InstructionSize);
    StandsCounted(b, p, write, fits, has, InstructionSize, list);
  }

  /** The id, the parameters of 13 bytes each, the instructions and the terminator. */
  ghost predicate HasBlock(pool: Pool, b: Bytes, p: nat, x: Block) {
    var r := p + 8 + 13 * |x.parameters|;
    && Has4(b, p, x.id) && HasParameters(b, p + 4, x.parameters) && HasInstructions(pool, b, r, x.instructions)
    && HasTerminator(b, r + 4 + SizeOfAll(InstructionSize, x.instructions), x.terminator)
  }

  function BlockSize(x: Block): nat {
    12 + 13 * |x.parameters| + SizeOfAll(InstructionSize, x.instructions) + TerminatorSize(x.terminator)
  }

  lemma StandsBlock(pool: Pool, b: Bytes, p: nat, x: Block)
    requires BlockFits(pool, x)
    ensures (Stands(b, p, BlockBytes(pool, x)) <==> HasBlock(pool, b, p, x)) && |BlockBytes(pool, x)| == BlockSize(x)
  {
    hide Has4, HasParameters, HasInstructions, HasTerminator, TerminatorSize, InstructionFits, ParameterFits, TerminatorFits,
      ListBytes, TerminatorBytes, Stands, Little;
    var r := p + 8 + 13 * |x.parameters|;
    var y, z, t := ListBytes(ParameterBytes, x.parameters), ListBytes(WriteInstruction(pool), x.instructions),
                   TerminatorBytes(x.terminator);
    StandsApart(b, p, Word(x.id), y + (z + t));
    Stands4(b, p, x.id);
    StandsApart(b, p + 4, y, z + t);
    StandsParameters(b, p + 4, x.parameters);
    StandsApart(b, r, z, t);
    StandsInstructions(pool, b, r, x.instructions);
    StandsTerminator(b, r + |z|, x.terminator);
  }

  // ----- bodies and the section -----

  ghost predicate HasBlocks(pool: Pool, b: Bytes, p: nat, list: seq<Block>) {
    HasList(b, p, (p, x) => HasBlock(pool, b, p, x), BlockSize, list)
  }

  lemma StandsBlocks(pool: Pool, b: Bytes, p: nat, list: seq<Block>)
    requires forall i :: 0 <= i < |list| ==> BlockFits(pool, list[i])
    ensures Stands(b, p, ListBytes(WriteBlock(pool), list)) <==> HasBlocks(pool, b, p, list)
    ensures |ListBytes(WriteBlock(pool), list)| == 4 + SizeOfAll(BlockSize, list)
  {
    hide BlockBytes, HasBlock, BlockFits, BlockSize, HasList, ListBytes, Stands;
    var write, fits := WriteBlock(pool), x => BlockFits(pool, x);
    ghost var has := (p, x) => HasBlock(pool, b, p, x);
    forall x | fits(x) ensures |write(x)| == BlockSize(x) {
      StandsBlock(pool, b, 0, x);
    }
    forall p: nat, x | fits(x) ensures Stands(b, p, write(x)) <==> has(p, x) {
      StandsBlock(pool, b, p, x);
    }
    assert Described(b, write, fits, has, BlockSize);
    StandsCounted(b, p, write, fits, has, BlockSize, list);
  }

  predicate HasHandlers(b: Bytes, p: nat, list: seq<Handler>) {
    HasList(b, p, (p, x) => HasHandler(b, p, x), HandlerSize, list)
  }

  lemma StandsHandlers(b: Bytes, p: nat, list: seq<Handler>)
    ensures Stands(b, p, ListBytes(HandlerBytes, list)) <==> HasHandlers(b, p, list)
    ensures |ListBytes(HandlerBytes, list)| == 4 + SizeOfAll(HandlerSize, list)
  {
    hide HandlerBytes, HasHandler, HandlerSize, HasList, ListBytes, Stands;
    var fits, has := (x: Handler) => true, (p, x) => HasHandler(b, p, x);
    forall x ensures |HandlerBytes(x)| == HandlerSize(x) {
      StandsHandler(b, 0, x);
    }
    forall p: nat, x ensures Stands(b, p, HandlerBytes(x)) <==> has(p, x) {
      StandsHandler(b, p, x);
    }
    assert Described(b, HandlerBytes, fits, has, HandlerSize);
    StandsCounted(b, p, HandlerBytes, fits, has, HandlerSize, list);
  }

  /** The blocks and, in versions that have them, the handlers. */
  ghost predicate HasBody(pool: Pool, metadata: bool, b: Bytes, p: nat, f: Body) {
    HasBlocks(pool, b, p, f.blocks) && (metadata ==> HasHandlers(b, p + 4 + SizeOfAll(BlockSize, f.blocks), f.handlers))
  }

  function BodySize(metadata: bool, f: Body): nat {
    4 + SizeOfAll(BlockSize, f.blocks) + if metadata then 4 + SizeOfAll(HandlerSize, f.handlers) else 0
  }

  lemma StandsBody(pool: Pool, metadata: bool, b: Bytes, p: nat, f: Body)
    requires BodyFits(pool, metadata, f)
    ensures Stands(b, p, BodyBytes(pool, metadata, f)) <==> HasBody(pool, metadata, b, p, f)
    ensures |BodyBytes(pool, metadata, f)| == BodySize(metadata, f)
  {
    hide HasBlocks, HasHandlers, ListBytes, Stands, BlockFits, HandlerFits;
    var y := ListBytes(WriteBlock(pool), f.blocks);
    StandsBlocks(pool, b, p, f.blocks);
    if metadata {
      StandsApart(b, p, y, ListBytes(HandlerBytes, f.handlers));
      StandsHandlers(b, p + |y|, f.handlers);
    } else {
      assert y + [] == y;
    }
  }

  /** In the section every body stands where its recorded range is, every field of it at its place. */
  lemma SectionHasLayout(pool: Pool, metadata: bool, bodies: seq<Body>, k: nat)
    requires k < |bodies| && |Section(pool, metadata, bodies)| < WORD_LIMIT && BodyFits(pool, metadata, bodies[k])
    ensures |Ranges(pool, metadata, bodies)| == |bodies|
    ensures var range := Ranges(pool, metadata, bodies)[k];
            range.size == BodySize(metadata, bodies[k]) &&
            HasBody(pool, metadata, Section(pool, metadata, bodies), range.offset, bodies[k])
    ensures Ranges(pool, metadata, bodies)[0].offset == 0
    ensures k > 0 ==> var before := Ranges(pool, metadata, bodies)[k - 1];
                      Ranges(pool, metadata, bodies)[k].offset == before.offset + before.size
  {
    hide HasBody, BodySize, Section, Ranges, BodyBytes, BodyFits;
    var section := Section(pool, metadata, bodies);
    RangeIsPlace(pool, metadata, bodies, k);
    RangeIsPlace(pool, metadata, bodies, 0);
    RangesFollow(pool, metadata, bodies);
    NoSection(pool, metadata, bodies);
    var before, body := Section(pool, metadata, bodies[..k]), BodyBytes(pool, metadata, bodies[k]);
    StandsBehind(section, before, body);
    StandsBody(pool, metadata, section, |before|, bodies[k]);
  }

  lemma NoSection(pool: Pool, metadata: bool, bodies: seq<Body>)
    ensures Section(pool, metadata, bodies[..0]) == []
  {
  }

  lemma StandsBehind(b: Bytes, x: Bytes, y: Bytes)
    requires x + y <= b
    ensures Stands(b, |x|, y)
  {
    assert b[..|x + y|] == x + y;
    assert b[|x|..|x| + |y|] == (x + y)[|x|..];
  }
}
