/** The instruction format, and the decoder that reads it. */
module Encoding {
  import opened Basics
  import opened Numbers
  import opened Powers

  datatype Register = D(n: nat) | A(n: nat) | CR(n: nat)

  datatype Operand =
    | Reg(register: Register)
    | Immediate(value: int)
    | Deref(base: Register)
    | RegRelative(base: Register, index: Register, shift: nat)
    | AbsRelative(base: Register, offset: int)
    | Label(symbol: string)
    | Address(at: nat)

  datatype Instruction =
    | NoOp(opcode: Byte)
    | OneOp(opcode: Byte, opSize: nat, operand: Operand)
    | TwoOp(opcode: Byte, opSize: nat, family: nat, dst: Operand, src: Operand)

  datatype Operands = NoOperand | OneOperand | TwoOperands

  /** What the instruction table says of an opcode. */
  datatype Description = Description(operands: Operands, branching: bool, immediate: bool, anyRegister: bool, addressing: bool,
                                     readsDestination: bool)

  type Table = map<Byte, Description>

  const INTEGER := 0
  const CONTROL := 1
  const LONG := 3

  // Address modes, and the relative modes in the bits above them.
  const INDIRECT := 0
  const IMMEDIATE := 1
  const ABSOLUTE := 2
  const REGISTER := 3
  const REG_RELATIVE := 1
  const ABS_RELATIVE := 2

  /** The operand sizes 0..3 stand for 1, 2, 4 and 8 bytes. */
  function ByteSize(opSize: nat): (n: nat)
    requires opSize <= LONG
    ensures n > 0
  {
    Pow(2, opSize)
  }

  function Index(r: Register): nat
  {
    if r.D? then r.n else 8 + r.n
  }

  /** The registers that an index below 16 selects: the family decides between aN and crN. */
  function RegisterAt(index: nat, family: nat): Register
  {
    if index <= 7 then D(index) else if family == CONTROL then CR(index - 8) else A(index - 8)
  }

  function ModeByte(o: Operand, branching: bool): int
  {
    match o
    case Reg(r) => Index(r) * 16 + REGISTER
    case Immediate(_) => IMMEDIATE
    case Deref(base) => Index(base) * 16 + INDIRECT
    case RegRelative(base, _, _) => Index(base) * 16 + REG_RELATIVE * 4 + INDIRECT
    case AbsRelative(base, _) => Index(base) * 16 + ABS_RELATIVE * 4 + INDIRECT
    case Label(_) => if branching then IMMEDIATE else ABSOLUTE
    case Address(_) => ABSOLUTE
  }

  /** The register is one of the eight of its kind, and the family of the instruction selects it. */
  predicate Selected(r: Register, family: nat)
  {
    r.n < 8 && (r.A? ==> family != CONTROL) && (r.CR? ==> family == CONTROL)
  }

  /** The operands that the encoding can hold. */
  predicate Encodable(o: Operand, opSize: nat, family: nat)
  {
    match o
    case Reg(r) => Selected(r, family)
    case Immediate(_) => true
    case Deref(base) => Selected(base, family)
    case RegRelative(base, index, shift) => Selected(base, family) && Selected(index, INTEGER) && shift <= 15
    case AbsRelative(base, offset) => Selected(base, family)
    case Label(_) => opSize == LONG
    case Address(_) => false
  }

  function Low(value: int, size: nat): nat
  {
    value % Pow(0x100, size)
  }

  /** The bytes that follow the fixed part for an operand. */
  function Trailer(o: Operand, opSize: nat): seq<Byte>
    requires opSize <= LONG && (o.RegRelative? ==> Selected(o.index, INTEGER) && o.shift <= 15)
  {
    match o
    case Immediate(value) => BigEndian(Low(value, ByteSize(opSize)), ByteSize(opSize))
    case RegRelative(_, index, shift) => [Index(index) * 16 + shift]
    case AbsRelative(_, offset) => [offset % 0x100]
    case Label(_) => BigEndian(0, 8)
    case _ => []
  }

  /** What an operand is once it is encoded: numbers lose their high bytes, and a label is still zero. */
  function Canonical(o: Operand, opSize: nat, branching: bool): Operand
    requires opSize <= LONG
  {
    match o
    case Immediate(value) => Immediate(Low(value, ByteSize(opSize)))
    case AbsRelative(base, offset) => AbsRelative(base, offset % 0x100)
    case Label(_) => if branching then Immediate(0) else Address(0)
    case _ => o
  }

  // The decoder.

  function AddrMode(mode: Byte): int
  {
    mode % 4
  }

  function RelMode(mode: Byte): int
  {
    mode / 4 % 4
  }

  /** How many bytes an operand takes behind the fixed part. */
  function OpArgSize(mode: Byte, opSize: nat): nat
    requires opSize <= LONG
  {
    (if AddrMode(mode) == ABSOLUTE then 8 else 0)
    + (if RelMode(mode) == ABS_RELATIVE || RelMode(mode) == REG_RELATIVE then 1 else 0)
    + (if AddrMode(mode) == IMMEDIATE then ByteSize(opSize) else 0)
  }

  /** An operand of its mode byte and the bytes that follow for it. */
  function ReadOperand(mode: Byte, family: nat, opSize: nat, b: seq<Byte>): Operand
    requires opSize <= LONG && |b| == OpArgSize(mode, opSize)
  {
    var base := RegisterAt(mode / 16, family);
    if AddrMode(mode) == REGISTER then Reg(base)
    else if AddrMode(mode) == IMMEDIATE then Immediate(FromBigEndian(b))
    else if AddrMode(mode) == ABSOLUTE then Address(FromBigEndian(b))
    else if RelMode(mode) == REG_RELATIVE then
      var low: int := b[0];
      RegRelative(base, RegisterAt(low / 16, INTEGER), low % 16)
    else if RelMode(mode) == ABS_RELATIVE then AbsRelative(base, b[0])
    else Deref(base)
  }

  lemma NumberRoundTrip(value: int, size: nat)
    ensures FromBigEndian(BigEndian(Low(value, size), size)) == Low(value, size)
  {
    ReadsBack(Low(value, size), size);
    SmallMod(Low(value, size), Pow(0x100, size));
  }

  lemma SmallMod(x: nat, m: nat)
    requires x < m
    ensures x % m == x
  {
  }

  lemma ZeroReads(size: nat)
    ensures FromBigEndian(BigEndian(0, size)) == 0
  {
    ReadsBack(0, size);
    SmallMod(0, Pow(0x100, size));
  }

  lemma LongIsEight()
    ensures ByteSize(LONG) == 8
  {
    assert Pow(2, 2) == 4;
  }

  /** The fields of a mode byte read back. */
  lemma ModeFields(index: nat, mode: nat)
    requires index < 16 && mode < 16
    ensures var m := index * 16 + mode; m < 0x100 && m / 16 == index && m % 4 == mode % 4 && m / 4 % 4 == mode / 4
  {
  }

  /** A register is selected again by its index exactly when it agrees with the family: aN and crN share theirs. */
  lemma RegisterRoundTrip(r: Register, family: nat)
    requires r.n < 8
    ensures Index(r) < 16
    ensures RegisterAt(Index(r), family) == r <==> Selected(r, family)
  {
  }

  /** An operand is read back from its mode byte and its trailer, whose size the mode byte tells. */
  lemma OperandRoundTrip(o: Operand, opSize: nat, family: nat, branching: bool)
    requires opSize <= LONG && Encodable(o, opSize, family)
    ensures 0 <= ModeByte(o, branching) < 0x100
    ensures OpArgSize(ModeByte(o, branching), opSize) == |Trailer(o, opSize)|
    ensures ReadOperand(ModeByte(o, branching), family, opSize, Trailer(o, opSize)) == Canonical(o, opSize, branching)
  {
    hide BigEndian, FromBigEndian, Low, ByteSize, RegisterAt, Index;
    match o
    case Reg(r) => RegisterRoundTrip(r, family); ModeFields(Index(r), 3);
    case Immediate(value) => NumberRoundTrip(value, ByteSize(opSize));
    case Deref(base) => RegisterRoundTrip(base, family); ModeFields(Index(base), 0);
    case RegRelative(base, index, shift) =>
      RegisterRoundTrip(base, family);
      RegisterRoundTrip(index, INTEGER);
      ModeFields(Index(base), 4);
      ModeFields(Index(index), shift);
      LowFields(Index(index), shift);
    case AbsRelative(base, _) => RegisterRoundTrip(base, family); ModeFields(Index(base), 8);
    case Label(_) => ZeroReads(8); LongIsEight();
  }

  lemma ModeIsByte(o: Operand, opSize: nat, family: nat, branching: bool)
    requires opSize <= LONG && Encodable(o, opSize, family)
    ensures 0 <= ModeByte(o, branching) < 0x100
  {
    hide ModeByte, Encodable;
    OperandRoundTrip(o, opSize, family, branching);
  }

  lemma LowFields(index: nat, low: nat)
    requires index < 16 && low < 16
    ensures (index * 16 + low) / 16 == index && (index * 16 + low) % 16 == low
  {
  }

  // Whole instructions.

  /** An operand whose value follows the instruction. */
  predicate ReadsImmediate(o: Operand, branching: bool)
  {
    o.Immediate? || (o.Label? && branching)
  }

  /** The instructions that the format can hold. */
  predicate Sound(i: Instruction, table: Table)
  {
    && i.opcode in table
    && match i
       case NoOp(_) => table[i.opcode].operands.NoOperand?
       case OneOp(_, opSize, operand) => table[i.opcode].operands.OneOperand? && opSize <= LONG && Encodable(operand, opSize, INTEGER)
       case TwoOp(_, opSize, family, dst, src) =>
         && table[i.opcode].operands.TwoOperands? && opSize <= LONG && family < 4
         && Encodable(dst, opSize, family) && Encodable(src, opSize, family)
  }

  /**
   An immediate destination is read last, behind the source, though it is written first: both
   are read right exactly if their bytes commute, and if the instruction reads its destination.
   */
  predicate ReadInOrder(i: Instruction, table: Table)
    requires Sound(i, table)
  {
    i.TwoOp? && ReadsImmediate(i.dst, table[i.opcode].branching) ==>
      && table[i.opcode].readsDestination
      && Trailer(i.dst, i.opSize) + Trailer(i.src, i.opSize) == Trailer(i.src, i.opSize) + Trailer(i.dst, i.opSize)
  }

  function SizeAndFamily(opSize: nat, family: nat): int
  {
    opSize + family * 16
  }

  function Encode(i: Instruction, table: Table): seq<Byte>
    requires Sound(i, table)
  {
    var branching := table[i.opcode].branching;
    match i
    case NoOp(opcode) => [opcode]
    case OneOp(opcode, opSize, operand) =>
      ModeIsByte(operand, opSize, INTEGER, branching);
      [opcode, opSize, ModeByte(operand, branching)] + Trailer(operand, opSize)
    case TwoOp(opcode, opSize, family, dst, src) =>
      ModeIsByte(dst, opSize, family, branching);
      ModeIsByte(src, opSize, family, branching);
      [opcode, SizeAndFamily(opSize, family), ModeByte(dst, branching), ModeByte(src, branching)]
      + Trailer(dst, opSize) + Trailer(src, opSize)
  }

  function CanonicalOf(i: Instruction, table: Table): Instruction
    requires Sound(i, table)
  {
    var branching := table[i.opcode].branching;
    match i
    case NoOp(_) => i
    case OneOp(opcode, opSize, operand) => OneOp(opcode, opSize, Canonical(operand, opSize, branching))
    case TwoOp(opcode, opSize, family, dst, src) =>
      TwoOp(opcode, opSize, family, Canonical(dst, opSize, branching), Canonical(src, opSize, branching))
  }

  /** The length of an instruction, from no more than its first four bytes. */
  function InstrSize(head: seq<Byte>, table: Table): nat
    requires |head| > 0 && head[0] in table && |head| >= FixedSize(table[head[0]])
  {
    var operands := table[head[0]].operands;
    if operands.OneOperand? then 3 + OpArgSize(head[2], head[1] % 4)
    else if operands.TwoOperands? then 4 + OpArgSize(head[2], head[1] % 4) + OpArgSize(head[3], head[1] % 4)
    else 1
  }

  function FixedSize(desc: Description): nat
  {
    if desc.operands.OneOperand? then 3 else if desc.operands.TwoOperands? then 4 else 1
  }

  /** What the decoder makes of the bytes at the instruction pointer. */
  function Decode(ts: seq<Byte>, table: Table): Option<Instruction>
  {
    if |ts| == 0 || ts[0] !in table || |ts| < FixedSize(table[ts[0]]) || |ts| < InstrSize(ts, table) then None
    else
      var operands := table[ts[0]].operands;
      if operands.NoOperand? then Some(NoOp(ts[0]))
      else
        var opSize, family := ts[1] % 4, ts[1] / 16 % 4;
        if operands.OneOperand? then
          Some(OneOp(ts[0], opSize, ReadOperand(ts[2], family, opSize, ts[3..InstrSize(ts, table)])))
        else if AddrMode(ts[2]) != IMMEDIATE then
          var mid := 4 + OpArgSize(ts[2], opSize);
          Some(TwoOp(ts[0], opSize, family, ReadOperand(ts[2], family, opSize, ts[4..mid]),
                     ReadOperand(ts[3], family, opSize, ts[mid..InstrSize(ts, table)])))
        else if table[ts[0]].readsDestination then
          var mid := 4 + OpArgSize(ts[3], opSize);
          Some(TwoOp(ts[0], opSize, family, ReadOperand(ts[2], family, opSize, ts[mid..InstrSize(ts, table)]),
                     ReadOperand(ts[3], family, opSize, ts[4..mid])))
        else None
  }

  lemma SizeFields(opSize: nat, family: nat)
    requires opSize < 4 && family < 4
    ensures var b := SizeAndFamily(opSize, family); 0 <= b < 0x100 && b % 4 == opSize && b / 16 % 4 == family
  {
    DivModUnique(opSize + family * 16, 4, 4 * family, opSize);
    DivModUnique(opSize + family * 16, 16, family, opSize);
  }

  /** Only an immediate operand has the immediate mode. */
  lemma ModeOfImmediate(o: Operand, opSize: nat, family: nat, branching: bool)
    requires opSize <= LONG && Encodable(o, opSize, family)
    ensures 0 <= ModeByte(o, branching) < 0x100
    ensures AddrMode(ModeByte(o, branching)) == IMMEDIATE <==> ReadsImmediate(o, branching)
  {
    OperandRoundTrip(o, opSize, family, branching);
  }

  lemma DecodeOne(i: Instruction, table: Table, rest: seq<Byte>)
    requires Sound(i, table) && i.OneOp?
    ensures var code := Encode(i, table);
            && |code| >= 3 && InstrSize(code[..3], table) == |code|
            && Decode(code + rest, table) == Some(CanonicalOf(i, table))
  {
    hide ModeByte, Trailer, Canonical, ReadOperand, OpArgSize;
    var branching := table[i.opcode].branching;
    OperandRoundTrip(i.operand, i.opSize, INTEGER, branching);
    SizeFields(i.opSize, INTEGER);
    var t := Trailer(i.operand, i.opSize);
    var head: seq<Byte> := [i.opcode, i.opSize, ModeByte(i.operand, branching)];
    var ts := head + t + rest;
    assert Encode(i, table) + rest == ts && ts[..3] == head;
    assert ts[3..3 + |t|] == t;
  }

  lemma TwoParts(i: Instruction, table: Table)
    requires Sound(i, table) && i.TwoOp?
    ensures var branching := table[i.opcode].branching;
            && 0 <= ModeByte(i.dst, branching) < 0x100 && 0 <= ModeByte(i.src, branching) < 0x100
            && 0 <= SizeAndFamily(i.opSize, i.family) < 0x100
            && Encode(i, table) == [i.opcode, SizeAndFamily(i.opSize, i.family), ModeByte(i.dst, branching), ModeByte(i.src, branching)]
                                   + Trailer(i.dst, i.opSize) + Trailer(i.src, i.opSize)
  {
    hide ModeByte, Trailer;
    OperandRoundTrip(i.dst, i.opSize, i.family, table[i.opcode].branching);
    OperandRoundTrip(i.src, i.opSize, i.family, table[i.opcode].branching);
    SizeFields(i.opSize, i.family);
  }

  /** The bytes of an instruction with two operands, and of whatever follows it. */
  lemma TwoBytes(i: Instruction, table: Table, rest: seq<Byte>)
    requires Sound(i, table) && i.TwoOp?
    ensures var branching := table[i.opcode].branching; var d, s := Trailer(i.dst, i.opSize), Trailer(i.src, i.opSize);
            var code := Encode(i, table); var ts := code + rest;
            && 0 <= ModeByte(i.dst, branching) < 0x100 && 0 <= ModeByte(i.src, branching) < 0x100
            && |code| == 4 + |d| + |s| && code[..4] == ts[..4]
            && ts[..4] == [i.opcode, SizeAndFamily(i.opSize, i.family), ModeByte(i.dst, branching), ModeByte(i.src, branching)]
            && ts[4..4 + |d|] == d && ts[4 + |d|..|code|] == s
            && ts[4..4 + |s|] == (d + s)[..|s|] && ts[4 + |s|..|code|] == (d + s)[|s|..]
  {
    hide ModeByte, Trailer, SizeAndFamily, Encode;
    TwoParts(i, table);
    var branching := table[i.opcode].branching;
    var d, s := Trailer(i.dst, i.opSize), Trailer(i.src, i.opSize);
    var head: seq<Byte> := [i.opcode, SizeAndFamily(i.opSize, i.family), ModeByte(i.dst, branching), ModeByte(i.src, branching)];
    Parts(head, d, s, rest);
  }

  lemma Parts(head: seq<Byte>, d: seq<Byte>, s: seq<Byte>, rest: seq<Byte>)
    ensures var code := head + d + s; var ts, n := code + rest, |head|;
            && code[..n] == ts[..n] == head && ts[n..n + |d|] == d && ts[n + |d|..|code|] == s
            && ts[n..n + |s|] == (d + s)[..|s|] && ts[n + |s|..|code|] == (d + s)[|s|..]
  {
    assert head + d + s == head + (d + s);
    Slices(head, d + s, rest, |d|);
    Slices(head, d + s, rest, |s|);
  }

  lemma Slices(head: seq<Byte>, body: seq<Byte>, rest: seq<Byte>, k: nat)
    requires k <= |body|
    ensures var ts := head + body + rest; var n := |head|;
            ts[..n] == head && ts[n..n + k] == body[..k] && ts[n + k..n + |body|] == body[k..]
  {
  }

  lemma TwoSize(i: Instruction, table: Table)
    requires Sound(i, table) && i.TwoOp?
    ensures |Encode(i, table)| >= 4 && InstrSize(Encode(i, table)[..4], table) == |Encode(i, table)|
  {
    hide ModeByte, Trailer, Canonical, ReadOperand, OpArgSize, SizeAndFamily, Encode, Encodable;
    TwoBytes(i, table, []);
    OperandRoundTrip(i.dst, i.opSize, i.family, table[i.opcode].branching);
    OperandRoundTrip(i.src, i.opSize, i.family, table[i.opcode].branching);
    SizeFields(i.opSize, i.family);
    assert Encode(i, table) + [] == Encode(i, table);
  }

  lemma DecodeTwo(i: Instruction, table: Table, rest: seq<Byte>)
    requires Sound(i, table) && i.TwoOp?
    ensures Decode(Encode(i, table) + rest, table) == Some(CanonicalOf(i, table)) <==> ReadInOrder(i, table)
  {
    hide ModeByte, Trailer, Canonical, ReadOperand, OpArgSize, AddrMode, SizeAndFamily, ReadsImmediate, Encode, InstrSize;
    var branching := table[i.opcode].branching;
    TwoBytes(i, table, rest);
    TwoSize(i, table);
    OperandRoundTrip(i.dst, i.opSize, i.family, branching);
    OperandRoundTrip(i.src, i.opSize, i.family, branching);
    ModeOfImmediate(i.dst, i.opSize, i.family, branching);
    SizeFields(i.opSize, i.family);
    SizeIsFixedPart(Encode(i, table), rest, table);
    if ReadsImmediate(i.dst, branching) {
      var d, s := Trailer(i.dst, i.opSize), Trailer(i.src, i.opSize);
      Swapped(i, table, (d + s)[..|s|], (d + s)[|s|..]);
      Commute(d, s);
    }
  }

  lemma Commute(d: seq<Byte>, s: seq<Byte>)
    ensures d + s == s + d <==> (d + s)[..|s|] == s && (d + s)[|s|..] == d
  {
  }

  /** An immediate destination and a source are read right from other bytes only if those are their own. */
  lemma Swapped(i: Instruction, table: Table, s: seq<Byte>, d: seq<Byte>)
    requires Sound(i, table) && i.TwoOp? && ReadsImmediate(i.dst, table[i.opcode].branching)
    requires |s| == |Trailer(i.src, i.opSize)| && |d| == |Trailer(i.dst, i.opSize)|
    ensures var branching := table[i.opcode].branching;
            && 0 <= ModeByte(i.dst, branching) < 0x100 && |d| == OpArgSize(ModeByte(i.dst, branching), i.opSize)
            && 0 <= ModeByte(i.src, branching) < 0x100 && |s| == OpArgSize(ModeByte(i.src, branching), i.opSize)
            && (ReadOperand(ModeByte(i.dst, branching), i.family, i.opSize, d) == Canonical(i.dst, i.opSize, branching)
                <==> d == Trailer(i.dst, i.opSize))
            && (ReadOperand(ModeByte(i.src, branching), i.family, i.opSize, s) == Canonical(i.src, i.opSize, branching)
                <==> s == Trailer(i.src, i.opSize))
  {
    hide ModeByte, Trailer, Canonical, ReadOperand, OpArgSize, ReadsImmediate, Index, RegisterAt;
    OperandRoundTrip(i.dst, i.opSize, i.family, table[i.opcode].branching);
    OperandRoundTrip(i.src, i.opSize, i.family, table[i.opcode].branching);
    PlainMode(i.dst, i.opSize, i.family, table[i.opcode].branching);
    PlainMode(i.src, i.opSize, i.family, table[i.opcode].branching);
    ReadInjective(ModeByte(i.dst, table[i.opcode].branching), i.family, i.opSize, d, Trailer(i.dst, i.opSize));
    ReadInjective(ModeByte(i.src, table[i.opcode].branching), i.family, i.opSize, s, Trailer(i.src, i.opSize));
  }

  /** Only an indirect operand has a relative mode. */
  lemma PlainMode(o: Operand, opSize: nat, family: nat, branching: bool)
    requires opSize <= LONG && Encodable(o, opSize, family)
    ensures 0 <= ModeByte(o, branching) < 0x100
    ensures AddrMode(ModeByte(o, branching)) != INDIRECT ==> RelMode(ModeByte(o, branching)) == 0
  {
    hide Index;
    OperandRoundTrip(o, opSize, family, branching);
    match o
    case Reg(r) => RegisterRoundTrip(r, family); ModeFields(Index(r), 3);
    case Deref(base) => RegisterRoundTrip(base, family); ModeFields(Index(base), 0);
    case RegRelative(base, _, _) => RegisterRoundTrip(base, family); ModeFields(Index(base), 4);
    case AbsRelative(base, _) => RegisterRoundTrip(base, family); ModeFields(Index(base), 8);
    case _ =>
  }

  /** Operands of one mode that read alike have the same bytes. */
  lemma ReadInjective(mode: Byte, family: nat, opSize: nat, a: seq<Byte>, b: seq<Byte>)
    requires opSize <= LONG && |a| == |b| == OpArgSize(mode, opSize)
    requires AddrMode(mode) != INDIRECT ==> RelMode(mode) == 0
    ensures ReadOperand(mode, family, opSize, a) == ReadOperand(mode, family, opSize, b) <==> a == b
  {
    hide FromBigEndian, ByteSize;
    FromBigEndianInjective(a, b);
    if |a| == 1 && a[0] != b[0] {
      var x: int, y: int := a[0], b[0];
      assert x == 16 * (x / 16) + x % 16 && y == 16 * (y / 16) + y % 16;
    }
  }

  lemma {:induction false} FromBigEndianInjective(a: seq<Byte>, b: seq<Byte>)
    requires |a| == |b|
    ensures FromBigEndian(a) == FromBigEndian(b) <==> a == b
  {
    if |a| > 0 {
      FromBigEndianInjective(a[..|a| - 1], b[..|b| - 1]);
      assert a == a[..|a| - 1] + [a[|a| - 1]] && b == b[..|b| - 1] + [b[|b| - 1]];
    }
  }

  /** The size is known from the fixed part, and the decoder reads back what was encoded, whatever follows. */
  lemma DecodeAfterEncode(i: Instruction, table: Table, rest: seq<Byte>)
    requires Sound(i, table)
    ensures var code := Encode(i, table); var n := FixedSize(table[i.opcode]);
            && |code| >= n && InstrSize(code[..n], table) == |code|
            && (Decode(code + rest, table) == Some(CanonicalOf(i, table)) <==> ReadInOrder(i, table))
  {
    match i
    case NoOp(_) =>
    case OneOp(_, _, _) => DecodeOne(i, table, rest);
    case TwoOp(_, _, _, _, _) => DecodeTwo(i, table, rest); TwoSize(i, table);
  }

  /** Two immediates, 1 into 2: read the other way round. */
  lemma ImmediatesSwapped(opcode: Byte, rest: seq<Byte>)
    ensures var table := map[opcode := Description(TwoOperands, false, true, true, true, true)];
            var i := TwoOp(opcode, 0, INTEGER, Immediate(2), Immediate(1));
            Sound(i, table) && !ReadInOrder(i, table)
            && Decode(Encode(i, table) + rest, table) == Some(TwoOp(opcode, 0, INTEGER, Immediate(1), Immediate(2)))
  {
    OneByte();
    hide Pow, BigEndian, FromBigEndian;
    var table := map[opcode := Description(TwoOperands, false, true, true, true, true)];
    var i := TwoOp(opcode, 0, INTEGER, Immediate(2), Immediate(1));
    var d, s := Trailer(i.dst, 0), Trailer(i.src, 0);
    assert d == [2] && s == [1] && (d + s)[0] != (s + d)[0];
    var ts: seq<Byte> := [opcode, 0, 1, 1, 2, 1] + rest;
    assert Encode(i, table) + rest == ts;
    OneByteAt(ts, 4, 2);
    OneByteAt(ts, 5, 1);
  }

  lemma OneByteAt(ts: seq<Byte>, n: nat, b: Byte)
    requires n < |ts| && ts[n] == b
    ensures ts[n..n + 1] == [b]
  {
    assert |ts[n..n + 1]| == 1 && ts[n..n + 1][0] == b;
  }

  lemma OneByte()
    ensures ByteSize(0) == 1 && Low(2, 1) == 2 && Low(1, 1) == 1
    ensures BigEndian(2, 1) == [2] && BigEndian(1, 1) == [1] && FromBigEndian([2]) == 2 && FromBigEndian([1]) == 1
  {
    assert Pow(2, 0) == 1 && Pow(0x100, 1) == 0x100;
  }

  ghost predicate AllSound(p: seq<Instruction>, table: Table)
  {
    forall i :: 0 <= i < |p| ==> Sound(p[i], table) && ReadInOrder(p[i], table)
  }

  ghost function EncodeProgram(p: seq<Instruction>, table: Table): seq<Byte>
    requires AllSound(p, table)
  {
    if |p| == 0 then [] else Encode(p[0], table) + EncodeProgram(p[1..], table)
  }

  ghost function CanonicalProgram(p: seq<Instruction>, table: Table): seq<Instruction>
    requires AllSound(p, table)
  {
    if |p| == 0 then [] else [CanonicalOf(p[0], table)] + CanonicalProgram(p[1..], table)
  }

  /** Instruction after instruction, as the instruction pointer advances. */
  function DecodeProgram(ts: seq<Byte>, table: Table): Option<seq<Instruction>>
    decreases |ts|
  {
    if |ts| == 0 then Some([])
    else
      var first := Decode(ts, table);
      if first == None then None
      else
        var size := InstrSize(ts, table);
        if size == 0 then None
        else
          match DecodeProgram(ts[size..], table)
          case None => None
          case Some(more) => Some([first.value] + more)
  }

  lemma SizeIsFixedPart(ts: seq<Byte>, rest: seq<Byte>, table: Table)
    requires |ts| > 0 && ts[0] in table && |ts| >= FixedSize(table[ts[0]])
    ensures InstrSize(ts, table) == InstrSize(ts[..FixedSize(table[ts[0]])], table) == InstrSize(ts + rest, table) > 0
  {
  }

  /** A program has one reading: the instructions that were assembled. */
  lemma {:induction false} ProgramRoundTrip(p: seq<Instruction>, table: Table)
    requires AllSound(p, table)
    ensures DecodeProgram(EncodeProgram(p, table), table) == Some(CanonicalProgram(p, table))
  {
    hide Decode, Encode, Sound, CanonicalOf, InstrSize, ReadInOrder;
    if |p| > 0 {
      var code, rest := Encode(p[0], table), EncodeProgram(p[1..], table);
      DecodeAfterEncode(p[0], table, rest);
      EncodeStarts(p[0], table);
      SizeIsFixedPart(code, rest, table);
      assert (code + rest)[|code|..] == rest;
      ProgramRoundTrip(p[1..], table);
    }
  }

  lemma EncodeStarts(i: Instruction, table: Table)
    requires Sound(i, table)
    ensures i.opcode in table && |Encode(i, table)| > 0 && Encode(i, table)[0] == i.opcode
  {
  }

  /** So two programs with the same bytes are the same, up to what the encoding cannot hold. */
  lemma SameBytesSameProgram(p: seq<Instruction>, q: seq<Instruction>, table: Table)
    requires AllSound(p, table) && AllSound(q, table) && EncodeProgram(p, table) == EncodeProgram(q, table)
    ensures CanonicalProgram(p, table) == CanonicalProgram(q, table)
  {
    ProgramRoundTrip(p, table);
    ProgramRoundTrip(q, table);
  }
}
