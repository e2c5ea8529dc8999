/** The code emitter of the assembler: fixed part first, the rest by emitters that run afterwards. */
module EmitterModel {
  import opened Basics
  import opened Numbers
  import opened Encoding

  /** What an emitter that runs after the fixed part will put out. */
  datatype PostEmitter = PutNumber(size: nat, value: int) | PutByte(byte: Byte) | PutPlaceholder

  function PostBytes(post: PostEmitter): seq<Byte>
  {
    match post
    case PutNumber(size, value) => BigEndian(Low(value, size), size)
    case PutByte(byte) => [byte]
    case PutPlaceholder => BigEndian(0, 8)
  }

  function AllPostBytes(posts: seq<PostEmitter>): seq<Byte>
  {
    if |posts| == 0 then [] else AllPostBytes(posts[..|posts| - 1]) + PostBytes(posts[|posts| - 1])
  }

  /** The emitters that an operand leaves behind. */
  function PostsOf(o: Operand, opSize: nat): seq<PostEmitter>
    requires opSize <= LONG && (o.RegRelative? ==> Selected(o.index, INTEGER) && o.shift <= 15)
  {
    match o
    case Immediate(value) => [PutNumber(ByteSize(opSize), value)]
    case RegRelative(_, index, shift) => [PutByte(Index(index) * 16 + shift)]
    case AbsRelative(_, offset) => [PutByte(offset % 0x100)]
    case Label(_) => [PutPlaceholder]
    case _ => []
  }

  lemma PostsAreTrailer(o: Operand, opSize: nat)
    requires opSize <= LONG && (o.RegRelative? ==> Selected(o.index, INTEGER) && o.shift <= 15)
    ensures AllPostBytes(PostsOf(o, opSize)) == Trailer(o, opSize)
  {
    hide BigEndian, Low, ByteSize;
    var posts := PostsOf(o, opSize);
    if |posts| == 1 {
      assert posts[..0] == [] && AllPostBytes(posts) == AllPostBytes([]) + PostBytes(posts[0]);
    }
  }

  lemma {:induction false} PostsJoin(a: seq<PostEmitter>, b: seq<PostEmitter>)
    ensures AllPostBytes(a + b) == AllPostBytes(a) + AllPostBytes(b)
  {
    if |b| == 0 {
      assert a + b == a;
    } else {
      hide PostBytes;
      var init, last := b[..|b| - 1], b[|b| - 1];
      PostsJoin(a, init);
      assert (a + b)[..|a + b| - 1] == a + init && (a + b)[|a + b| - 1] == last;
      Associate(AllPostBytes(a), AllPostBytes(init), PostBytes(last));
    }
  }

  lemma Associate(a: seq<Byte>, b: seq<Byte>, c: seq<Byte>)
    ensures a + b + c == a + (b + c)
  {
  }

  /** Where the last placeholder goes, for bytes that begin at base. */
  function LastPlaceholder(posts: seq<PostEmitter>, base: nat, before: nat): nat
  {
    if |posts| == 0 then before
    else if posts[|posts| - 1] == PutPlaceholder then base + |AllPostBytes(posts[..|posts| - 1])|
    else LastPlaceholder(posts[..|posts| - 1], base, before)
  }

  lemma NothingPosted(posts: seq<PostEmitter>, base: nat, before: nat)
    ensures AllPostBytes(posts[..0]) == [] && LastPlaceholder(posts[..0], base, before) == before
  {
  }

  lemma PostNext(posts: seq<PostEmitter>, k: nat, base: nat, before: nat)
    requires k < |posts|
    ensures AllPostBytes(posts[..k + 1]) == AllPostBytes(posts[..k]) + PostBytes(posts[k])
    ensures LastPlaceholder(posts[..k + 1], base, before)
            == if posts[k] == PutPlaceholder then base + |AllPostBytes(posts[..k])| else LastPlaceholder(posts[..k], base, before)
  {
    assert posts[..k + 1][..k] == posts[..k];
  }

  lemma {:induction false} LastOfTwo(a: seq<PostEmitter>, b: seq<PostEmitter>, base: nat, before: nat)
    ensures LastPlaceholder(a + b, base, before)
            == LastPlaceholder(b, base + |AllPostBytes(a)|, LastPlaceholder(a, base, before))
  {
    hide PostBytes;
    if |b| == 0 {
      assert a + b == a;
    } else {
      var init := b[..|b| - 1];
      assert (a + b)[..|a + b| - 1] == a + init && (a + b)[|a + b| - 1] == b[|b| - 1];
      PostsJoin(a, init);
      LastOfTwo(a, init, base, before);
    }
  }

  lemma LastOfOperand(o: Operand, opSize: nat, base: nat, before: nat)
    requires opSize <= LONG && (o.RegRelative? ==> Selected(o.index, INTEGER) && o.shift <= 15)
    ensures LastPlaceholder(PostsOf(o, opSize), base, before) == if o.Label? then base else before
  {
    hide ByteSize;
  }

  /** What the instruction set supports as an operand. */
  predicate Supported(desc: Description, o: Operand, opSize: nat)
  {
    match o
    case Immediate(_) => desc.immediate
    case Reg(_) => desc.anyRegister
    case Label(_) => desc.addressing && opSize == LONG
    case AbsRelative(_, offset) => desc.addressing && offset <= 255
    case RegRelative(_, _, shift) => desc.addressing && shift <= 15
    case Deref(_) => desc.addressing
    case Address(_) => false
  }

  /** An operand as the parser hands it over: registers that exist, and labels on the absolute path. */
  predicate Written(desc: Description, o: Operand, opSize: nat)
  {
    && opSize <= LONG && !o.Address? && (o.Label? ==> desc.addressing && opSize == LONG)
    && (o.Reg? ==> Index(o.register) < 16) && (o.Deref? || o.AbsRelative? ==> Index(o.base) < 16)
    && (o.RegRelative? ==> Index(o.base) < 16 && Selected(o.index, INTEGER))
  }

  lemma EncodableIsWritten(desc: Description, o: Operand, opSize: nat, family: nat)
    requires opSize <= LONG && Encodable(o, opSize, family) && Emittable(o, desc, opSize)
    ensures Written(desc, o, opSize)
  {
  }

  predicate HasLabel(i: Instruction)
  {
    match i
    case NoOp(_) => false
    case OneOp(_, _, operand) => operand.Label?
    case TwoOp(_, _, _, dst, src) => dst.Label? || src.Label?
  }

  /** The label that waits for its address: with two labels it is the second. */
  function LabelOf(i: Instruction): string
    requires HasLabel(i)
  {
    match i
    case OneOp(_, _, operand) => operand.symbol
    case TwoOp(_, _, _, dst, src) => if src.Label? then src.symbol else dst.symbol
  }

  /** Where that label's placeholder is: behind the fixed part, and behind the trailer of a first operand. */
  function PlaceholderAt(i: Instruction, table: Table): nat
    requires Sound(i, table) && HasLabel(i)
  {
    match i
    case OneOp(_, _, _) => 3
    case TwoOp(_, opSize, _, dst, src) => if src.Label? then 4 + |Trailer(dst, opSize)| else 4
  }

  /** The emitter can put the instruction out: labels take the absolute path. */
  predicate Emittable(o: Operand, desc: Description, opSize: nat)
  {
    o.Label? ==> desc.addressing && opSize == LONG
  }

  lemma {:induction false} Zeros(n: nat)
    ensures BigEndian(0, n) == seq(n, _ => 0)
  {
    if n > 0 {
      Zeros(n - 1);
      assert BigEndian(0, n) == BigEndian(0, n - 1) + [0];
    }
  }

  /** The placeholder is eight zero bytes of the instruction, whatever came before it. */
  lemma PlaceholderIsZero(i: Instruction, table: Table)
    requires Sound(i, table) && HasLabel(i)
    ensures var at := PlaceholderAt(i, table);
            at + 8 <= |Encode(i, table)| && Encode(i, table)[at..at + 8] == seq(8, _ => 0)
  {
    hide BigEndian, ModeByte;
    Zeros(8);
    var zeros := BigEndian(0, 8);
    match i
    case OneOp(_, _, operand) =>
      assert Encode(i, table)[3..] == zeros;
    case TwoOp(_, opSize, _, dst, src) =>
      var d, s := Trailer(dst, opSize), Trailer(src, opSize);
      assert Encode(i, table)[4..] == d + s;
      var at := PlaceholderAt(i, table);
      if src.Label? { assert Encode(i, table)[at..at + 8] == s; } else { assert Encode(i, table)[at..at + 8] == d; }
  }

  /** The two operands' emitters together, and where the last placeholder comes to lie. */
  lemma TwoPosts(i: Instruction, table: Table)
    requires Sound(i, table) && i.TwoOp?
    ensures var posts := PostsOf(i.dst, i.opSize) + PostsOf(i.src, i.opSize);
            && [] + PostsOf(i.dst, i.opSize) + PostsOf(i.src, i.opSize) == posts
            && AllPostBytes(posts) == Trailer(i.dst, i.opSize) + Trailer(i.src, i.opSize)
            && LastPlaceholder(posts, 4, 0) == if HasLabel(i) then PlaceholderAt(i, table) else 0
  {
    hide Trailer, PostsOf, AllPostBytes, LastPlaceholder;
    var d, s := PostsOf(i.dst, i.opSize), PostsOf(i.src, i.opSize);
    assert [] + d + s == d + s;
    PostsJoin(d, s);
    PostsAreTrailer(i.dst, i.opSize);
    PostsAreTrailer(i.src, i.opSize);
    LastOfTwo(d, s, 4, 0);
    LastOfOperand(i.dst, i.opSize, 4, 0);
    LastOfOperand(i.src, i.opSize, 4 + |Trailer(i.dst, i.opSize)|, LastPlaceholder(d, 4, 0));
  }

  class EmitCodeStatement {
    var data: seq<Byte>
    var haveOpSize: bool
    var postEmitters: seq<PostEmitter>
    var haveIdentifier: bool
    var symbol: string
    var placeholderAddress: nat

    constructor ()
      ensures data == [] && !haveOpSize && postEmitters == [] && !haveIdentifier && placeholderAddress == 0
    {
      data, haveOpSize, postEmitters, haveIdentifier, symbol, placeholderAddress := [], false, [], false, "", 0;
    }

    method EmitByte(byte: Byte)
      modifies this`data
      ensures data == old(data) + [byte]
    {
      data := data + [byte];
    }

    method EmitOpSize(opSize: Byte)
      modifies this`data, this`haveOpSize
      ensures data == old(data) + [opSize] && haveOpSize
    {
      haveOpSize := true;
      EmitByte(opSize);
    }

    method EmitNumber(value: int, size: nat)
      modifies this`data
      ensures data == old(data) + BigEndian(Low(value, size), size)
    {
      data := data + BigEndian(Low(value, size), size);
    }

    /** The mode byte of an operand goes out now, the rest of it is left to an emitter. */
    method EmitInstrOperand(desc: Description, opSize: nat, o: Operand) returns (ok: bool)
      requires Written(desc, o, opSize)
      modifies this
      ensures ok <==> match o
                      case Immediate(_) => desc.immediate
                      case Reg(_) => desc.anyRegister
                      case Deref(_) => desc.addressing
                      case RegRelative(_, _, shift) => desc.addressing && shift <= 15
                      case AbsRelative(_, offset) => desc.addressing && offset <= 255
                      case _ => true
      ensures ok && !o.Label? ==>
                data == old(data) + [ModeByte(o, desc.branching)] && haveOpSize == old(haveOpSize)
                && haveIdentifier == old(haveIdentifier) && symbol == old(symbol)
      ensures ok && o.Label? ==>
                data == old(data) + (if old(haveOpSize) then [] else [opSize]) + [ModeByte(o, desc.branching)] && haveOpSize
                && haveIdentifier && symbol == o.symbol
      ensures ok ==> (o.RegRelative? ==> o.shift <= 15)
      ensures ok ==> postEmitters == old(postEmitters) + PostsOf(o, opSize) && placeholderAddress == old(placeholderAddress)
    {
      ok := true;
      match o
      case Immediate(value) =>
        if !desc.immediate { return false; }
        EmitByte(IMMEDIATE);
        postEmitters := postEmitters + [PutNumber(ByteSize(opSize), value)];
      case Reg(r) =>
        if !desc.anyRegister { return false; }
        EmitByte(Index(r) * 16 + REGISTER);
      case Label(name) =>
        if !haveOpSize { EmitOpSize(opSize); }
        EmitByte(if desc.branching then IMMEDIATE else ABSOLUTE);
        haveIdentifier, symbol := true, name;
        postEmitters := postEmitters + [PutPlaceholder];
      case Deref(base) =>
        if !desc.addressing { return false; }
        EmitByte(Index(base) * 16 + INDIRECT);
      case RegRelative(base, index, shift) =>
        if !desc.addressing { return false; }
        EmitByte(Index(base) * 16 + REG_RELATIVE * 4 + INDIRECT);
        if shift > 15 { return false; }
        postEmitters := postEmitters + [PutByte(Index(index) * 16 + shift)];
      case AbsRelative(base, offset) =>
        if !desc.addressing { return false; }
        EmitByte(Index(base) * 16 + ABS_RELATIVE * 4 + INDIRECT);
        if offset > 255 { return false; }
        postEmitters := postEmitters + [PutByte(offset % 0x100)];
    }

    /** The emitters run in the order in which they were left. */
    method RunPostEmitters()
      modifies this`data, this`placeholderAddress
      ensures data == old(data) + AllPostBytes(postEmitters)
      ensures placeholderAddress == LastPlaceholder(postEmitters, |old(data)|, old(placeholderAddress))
    {
      hide BigEndian, Low, AllPostBytes, LastPlaceholder;
      ghost var first, address, posts := data, placeholderAddress, postEmitters;
      NothingPosted(posts, |first|, address);
      for k := 0 to |postEmitters|
        invariant data == first + AllPostBytes(posts[..k])
        invariant placeholderAddress == LastPlaceholder(posts[..k], |first|, address)
      {
        var post := postEmitters[k];
        PostNext(posts, k, |first|, address);
        Associate(first, AllPostBytes(posts[..k]), PostBytes(post));
        match post
        case PutNumber(size, value) => EmitNumber(value, size);
        case PutByte(byte) => EmitByte(byte);
        case PutPlaceholder =>
          placeholderAddress := |data|;
          data := data + BigEndian(0, 8);
      }
      assert posts[..|posts|] == posts;
    }

    method ProcessNoOpInstrStmt(opcode: Byte, ghost table: Table)
      requires Sound(NoOp(opcode), table) && data == []
      modifies this
      ensures data == Encode(NoOp(opcode), table)
    {
      EmitByte(opcode);
    }

    /** The size goes in behind the opcode afterwards, unless a label has put it there itself. */
    method ProcessOneOpInstrStmt(i: Instruction, table: Table) returns (ok: bool)
      requires i.OneOp? && Sound(i, table) && Emittable(i.operand, table[i.opcode], i.opSize)
      requires data == [] && !haveOpSize && postEmitters == [] && !haveIdentifier && placeholderAddress == 0
      modifies this
      ensures ok <==> Supported(table[i.opcode], i.operand, i.opSize)
      ensures ok ==> data == Encode(i, table) && haveIdentifier == HasLabel(i)
      ensures ok && HasLabel(i) ==> symbol == LabelOf(i) && placeholderAddress == PlaceholderAt(i, table)
    {
      hide ModeByte, Trailer, BigEndian, PostsOf, AllPostBytes, LastPlaceholder, ByteSize;
      EmitByte(i.opcode);
      var opSizeWritePoint := |data|;
      ok := EmitInstrOperand(table[i.opcode], i.opSize, i.operand);
      if !ok { return; }
      if !haveOpSize {
        data := data[..opSizeWritePoint] + [i.opSize] + data[opSizeWritePoint..];
      }
      assert data == [i.opcode, i.opSize, ModeByte(i.operand, table[i.opcode].branching)];
      PostsAreTrailer(i.operand, i.opSize);
      LastOfOperand(i.operand, i.opSize, 3, 0);
      assert postEmitters == PostsOf(i.operand, i.opSize);
      RunPostEmitters();
    }

    method ProcessTwoOpInstrStmt(i: Instruction, table: Table) returns (ok: bool)
      requires i.TwoOp? && Sound(i, table)
      requires Emittable(i.dst, table[i.opcode], i.opSize) && Emittable(i.src, table[i.opcode], i.opSize)
      requires data == [] && !haveOpSize && postEmitters == [] && !haveIdentifier && placeholderAddress == 0
      modifies this
      ensures ok <==> Supported(table[i.opcode], i.dst, i.opSize) && Supported(table[i.opcode], i.src, i.opSize)
      ensures ok ==> data == Encode(i, table) && haveIdentifier == HasLabel(i)
      ensures ok && HasLabel(i) ==> symbol == LabelOf(i) && placeholderAddress == PlaceholderAt(i, table)
    {
      hide ModeByte, Trailer, BigEndian, PostsOf, AllPostBytes, LastPlaceholder, ByteSize, Encode, Encodable, Selected, Written;
      TwoParts(i, table);
      EncodableIsWritten(table[i.opcode], i.dst, i.opSize, i.family);
      EncodableIsWritten(table[i.opcode], i.src, i.opSize, i.family);
      TwoPosts(i, table);
      var desc := table[i.opcode];
      EmitByte(i.opcode);
      EmitOpSize(i.opSize + i.family * 16);
      ok := EmitInstrOperand(desc, i.opSize, i.dst);
      if !ok { return; }
      ok := EmitInstrOperand(desc, i.opSize, i.src);
      if !ok { return; }
      assert data == [i.opcode, SizeAndFamily(i.opSize, i.family), ModeByte(i.dst, desc.branching), ModeByte(i.src, desc.branching)];
      Associate(data, Trailer(i.dst, i.opSize), Trailer(i.src, i.opSize));
      RunPostEmitters();
    }
  }
}
