/** The bytes of an instruction, field by field. */
module Format {
  import opened Basics
  import opened Numbers
  import opened Powers
  import opened Encoding
  import opened EmitterModel

  /** The number of a register in a mode byte: d0 to d7, then a0 to a7 or cr0 to cr7. */
  function NumberOf(r: Register): nat
  {
    match r
    case D(n) => n
    case A(n) => 8 + n
    case CR(n) => 8 + n
  }

  /** One, two, four or eight bytes, the highest first, that hold the low bits of a value. */
  predicate Holds(b: seq<Byte>, opSize: nat, value: int)
  {
    match opSize
    case 0 => b == [value % 0x100]
    case 1 => b == [value / 0x100 % 0x100, value % 0x100]
    case 2 => b == [value / 0x100_0000 % 0x100, value / 0x1_0000 % 0x100, value / 0x100 % 0x100, value % 0x100]
    case 3 =>
      b == [value / 0x100_0000_0000_0000 % 0x100, value / 0x1_0000_0000_0000 % 0x100,
            value / 0x100_0000_0000 % 0x100, value / 0x1_0000_0000 % 0x100,
            value / 0x100_0000 % 0x100, value / 0x1_0000 % 0x100, value / 0x100 % 0x100, value % 0x100]
    case _ => false
  }

  /**
   The mode byte of an operand and the bytes that follow for it: the register in the high four
   bits, the relative mode in two bits below, the address mode in the lowest two.
   */
  predicate Shows(mode: int, tail: seq<Byte>, o: Operand, opSize: nat, branching: bool)
  {
    match o
    case Reg(r) => mode == 16 * NumberOf(r) + 3 && tail == []
    case Immediate(value) => mode == 1 && Holds(tail, opSize, value)
    case Deref(base) => mode == 16 * NumberOf(base) && tail == []
    case RegRelative(base, index, shift) => mode == 16 * NumberOf(base) + 4 && tail == [16 * NumberOf(index) + shift]
    case AbsRelative(base, offset) => mode == 16 * NumberOf(base) + 8 && tail == [offset % 0x100]
    case Label(_) => mode == (if branching then 1 else 2) && tail == [0, 0, 0, 0, 0, 0, 0, 0]
    case Address(_) => false
  }

  lemma QuotientIs(x: int, q: int, c: int, r: int)
    requires q > 0 && x == q * c + r && 0 <= r < q
    ensures x / q == c && x % q == r
  {
    var c' := x / q;
    assert x == q * c' + x % q;
    if c' < c { MulMono(c' + 1, c, q); Distribute(q, c', 1); }
    if c' > c { MulMono(c + 1, c', q); Distribute(q, c, 1); }
  }

  /** Cutting a value off above one of its bytes leaves that byte alone. */
  lemma SameDigit(value: int, c: nat, m: nat)
    requires c > 0 && m > 0
    ensures var w := c * (0x100 * m); w > 0 && value % w / c % 0x100 == value / c % 0x100
  {
    var w := c * (0x100 * m);
    MulMono(1, 0x100 * m, c);
    var t, low := value / w, value % w;
    var q, r := low / c, low % c;
    var p := m * t;
    assert value == w * t + low && low == c * q + r;
    assert w * t == c * (0x100 * p) by {
      MulAssoc(c, 0x100 * m, t);
      MulAssoc(0x100, m, t);
    }
    Distribute(c, 0x100 * p, q);
    QuotientIs(value, c, 0x100 * p + q, r);
    QuotientIs(0x100 * p + q, 0x100, p + q / 0x100, q % 0x100);
  }

  lemma Digit(value: int, size: nat, k: nat)
    requires k < size
    ensures BigEndian(Low(value, size), size)[k] == value / Pow(0x100, size - 1 - k) % 0x100
  {
    hide BigEndian;
    HighestFirst(Low(value, size), size, k);
    PowAdd(0x100, size - 1 - k, k + 1);
    SameDigit(value, Pow(0x100, size - 1 - k), Pow(0x100, k));
  }

  lemma BytePowers()
    ensures Pow(0x100, 0) == 1 && Pow(0x100, 1) == 0x100 && Pow(0x100, 2) == 0x1_0000 && Pow(0x100, 3) == 0x100_0000
    ensures Pow(0x100, 4) == 0x1_0000_0000 && Pow(0x100, 5) == 0x100_0000_0000
    ensures Pow(0x100, 6) == 0x1_0000_0000_0000 && Pow(0x100, 7) == 0x100_0000_0000_0000
  {
    PowAdd(0x100, 2, 2);
    PowAdd(0x100, 4, 1);
    PowAdd(0x100, 4, 2);
    PowAdd(0x100, 4, 3);
  }

  lemma Widths()
    ensures ByteSize(0) == 1 && ByteSize(1) == 2 && ByteSize(2) == 4 && ByteSize(3) == 8
  {
    assert Pow(2, 1) == 2 && Pow(2, 2) == 4;
  }

  lemma NumberHolds(value: int, opSize: nat)
    requires opSize <= 3
    ensures Holds(BigEndian(Low(value, ByteSize(opSize)), ByteSize(opSize)), opSize, value)
  {
    hide BigEndian, Low, ByteSize, Pow;
    Widths();
    BytePowers();
    var n := ByteSize(opSize);
    forall k | 0 <= k < n ensures BigEndian(Low(value, n), n)[k] == value / Pow(0x100, n - 1 - k) % 0x100 {
      Digit(value, n, k);
    }
    if opSize == 3 {
      EightBytes(BigEndian(Low(value, n), n), value);
    }
  }

  lemma EightBytes(b: seq<Byte>, value: int)
    requires |b| == 8 && forall k :: 0 <= k < 8 ==> b[k] == value / Pow(0x100, 7 - k) % 0x100
    ensures Holds(b, 3, value)
  {
    hide Pow;
    BytePowers();
    assert b[0] == value / Pow(0x100, 7) % 0x100 && b[1] == value / Pow(0x100, 6) % 0x100;
    assert b[2] == value / Pow(0x100, 5) % 0x100 && b[3] == value / Pow(0x100, 4) % 0x100;
    assert b[4] == value / Pow(0x100, 3) % 0x100 && b[5] == value / Pow(0x100, 2) % 0x100;
    assert b[6] == value / Pow(0x100, 1) % 0x100 && b[7] == value / Pow(0x100, 0) % 0x100;
  }

  lemma OperandShown(o: Operand, opSize: nat, family: nat, branching: bool)
    requires opSize <= 3 && Encodable(o, opSize, family)
    ensures Shows(ModeByte(o, branching), Trailer(o, opSize), o, opSize, branching)
  {
    hide BigEndian, Low, ByteSize, Holds;
    match o
    case Immediate(value) => NumberHolds(value, opSize);
    case Label(_) => ZeroBytes();
    case _ =>
  }

  lemma ZeroBytes()
    ensures BigEndian(0, 8) == [0, 0, 0, 0, 0, 0, 0, 0]
  {
    assert BigEndian(0, 4) == [0, 0, 0, 0];
    assert BigEndian(0, 7) == BigEndian(0, 6) + [0] && BigEndian(0, 6) == BigEndian(0, 5) + [0];
    assert BigEndian(0, 5) == BigEndian(0, 4) + [0];
  }

  /** How many bytes follow for an operand. */
  function TailLength(o: Operand, opSize: nat): nat
  {
    match o
    case Immediate(_) => if opSize == 0 then 1 else if opSize == 1 then 2 else if opSize == 2 then 4 else 8
    case RegRelative(_, _, _) => 1
    case AbsRelative(_, _) => 1
    case Label(_) => 8
    case _ => 0
  }

  /**
   The bytes of an instruction, with nothing left open: opcode, size and family, a mode byte for
   each operand, destination first, and then what follows for them in the same order.
   */
  lemma InstructionBytes(i: Instruction, table: Table)
    requires Sound(i, table)
    ensures var code, branching := Encode(i, table), table[i.opcode].branching;
            match i
            case NoOp(opcode) => code == [opcode]
            case OneOp(opcode, opSize, operand) =>
              && |code| == 3 + TailLength(operand, opSize) && code[0] == opcode && code[1] == opSize
              && Shows(code[2], code[3..], operand, opSize, branching)
            case TwoOp(opcode, opSize, family, dst, src) =>
              var mid := 4 + TailLength(dst, opSize);
              && |code| == mid + TailLength(src, opSize) && code[0] == opcode && code[1] == opSize + 16 * family
              && Shows(code[2], code[4..mid], dst, opSize, branching) && Shows(code[3], code[mid..], src, opSize, branching)
  {
    hide ModeByte, Trailer, Shows, Encodable;
    var branching := table[i.opcode].branching;
    match i
    case NoOp(_) =>
    case OneOp(_, opSize, operand) => OneShown(i, table);
    case TwoOp(_, opSize, family, dst, src) => TwoShown(i, table);
  }

  lemma ShownLength(mode: int, tail: seq<Byte>, o: Operand, opSize: nat, branching: bool)
    requires Shows(mode, tail, o, opSize, branching)
    ensures |tail| == TailLength(o, opSize)
  {
  }

  lemma OneShown(i: Instruction, table: Table)
    requires Sound(i, table) && i.OneOp?
    ensures var code := Encode(i, table);
            && |code| == 3 + TailLength(i.operand, i.opSize) && code[0] == i.opcode && code[1] == i.opSize
            && Shows(code[2], code[3..], i.operand, i.opSize, table[i.opcode].branching)
  {
    hide ModeByte, Trailer, Shows, TailLength;
    var branching := table[i.opcode].branching;
    OperandShown(i.operand, i.opSize, INTEGER, branching);
    ShownLength(ModeByte(i.operand, branching), Trailer(i.operand, i.opSize), i.operand, i.opSize, branching);
    assert Encode(i, table)[3..] == Trailer(i.operand, i.opSize);
  }

  lemma TwoShown(i: Instruction, table: Table)
    requires Sound(i, table) && i.TwoOp?
    ensures var code, branching, mid := Encode(i, table), table[i.opcode].branching, 4 + TailLength(i.dst, i.opSize);
            && |code| == mid + TailLength(i.src, i.opSize) && code[0] == i.opcode && code[1] == i.opSize + 16 * i.family
            && Shows(code[2], code[4..mid], i.dst, i.opSize, branching) && Shows(code[3], code[mid..], i.src, i.opSize, branching)
  {
    TwoParts(i, table);
    hide ModeByte, Trailer, Shows, TailLength, Encode;
    var branching := table[i.opcode].branching;
    OperandShown(i.dst, i.opSize, i.family, branching);
    OperandShown(i.src, i.opSize, i.family, branching);
    var d, s := Trailer(i.dst, i.opSize), Trailer(i.src, i.opSize);
    ShownLength(ModeByte(i.dst, branching), d, i.dst, i.opSize, branching);
    ShownLength(ModeByte(i.src, branching), s, i.src, i.opSize, branching);
    var code, mid := Encode(i, table), 4 + |d|;
    assert code[4..mid] == d && code[mid..] == s;
  }

  /** dN from an immediate: four fixed bytes, and then as many as the size says. */
  lemma MoveImmediate(i: Instruction, table: Table, n: nat, value: int)
    requires Sound(i, table) && i.TwoOp? && i.dst == Reg(D(n)) && i.src == Immediate(value)
    ensures var code := Encode(i, table);
            && |code| == (match i.opSize case 0 => 5 case 1 => 6 case 2 => 8 case _ => 12)
            && code[..4] == [i.opcode, i.opSize + 16 * i.family, 16 * n + 3, 1] && Holds(code[4..], i.opSize, value)
  {
    hide Encode, Holds;
    InstructionBytes(i, table);
  }

  /** move.w d0, 0x4433 and move.l a1, (a0 + d3<<2). */
  lemma MoveExamples(table: Table)
    requires 0x20 in table && table[0x20].operands.TwoOperands?
    ensures var i := TwoOp(0x20, 1, INTEGER, Reg(D(0)), Immediate(0x4433));
            Sound(i, table) && Encode(i, table) == [0x20, 0x01, 0x03, 0x01, 0x44, 0x33]
    ensures var i := TwoOp(0x20, 3, INTEGER, Reg(A(1)), RegRelative(A(0), D(3), 2));
            Sound(i, table) && Encode(i, table) == [0x20, 0x03, 0x93, 0x84, 0x32]
  {
    hide Encode;
    var w := TwoOp(0x20, 1, INTEGER, Reg(D(0)), Immediate(0x4433));
    InstructionBytes(w, table);
    SixBytes(Encode(w, table));
    var l := TwoOp(0x20, 3, INTEGER, Reg(A(1)), RegRelative(A(0), D(3), 2));
    InstructionBytes(l, table);
    FiveBytes(Encode(l, table));
  }

  lemma SixBytes(b: seq<Byte>)
    requires |b| == 6
    ensures b[4..4] == [] && b[4..] == [b[4], b[5]] && b == [b[0], b[1], b[2], b[3], b[4], b[5]]
  {
  }

  lemma FiveBytes(b: seq<Byte>)
    requires |b| == 5
    ensures b[4..] == [b[4]] && b == [b[0], b[1], b[2], b[3], b[4]]
  {
  }

  /** Where a label's placeholder is noted, and which label it is for: with two of them it is the second. */
  lemma PlaceholderPlace(i: Instruction, table: Table)
    requires Sound(i, table) && HasLabel(i)
    ensures match i
            case NoOp(_) => false
            case OneOp(_, _, operand) => PlaceholderAt(i, table) == 3 && operand == Label(LabelOf(i))
            case TwoOp(_, opSize, _, dst, src) =>
              if src.Label? then PlaceholderAt(i, table) == 4 + TailLength(dst, opSize) && src == Label(LabelOf(i))
              else PlaceholderAt(i, table) == 4 && dst == Label(LabelOf(i))
  {
    hide Trailer, TailLength, ModeByte;
    if i.TwoOp? {
      OperandShown(i.dst, i.opSize, i.family, table[i.opcode].branching);
      ShownLength(ModeByte(i.dst, table[i.opcode].branching), Trailer(i.dst, i.opSize), i.dst, i.opSize, table[i.opcode].branching);
    }
  }
}
