/** The two walks over an a10 function body: the layout pass, which sizes
    every instruction and binds labels to byte offsets without emitting
    anything, and the emission pass, which re-walks the same tokens and writes
    opcodes with little-endian operands resolved from the session tables and
    the layout's label map. */
module A10Function {
  import opened Base
  import opened Literals
  import opened A10Session

  const PUSHB_CODE: byte := 0x10
  const PUSHI_CODE: byte := 0x11
  const PUSHF_CODE: byte := 0x12
  const LOAD_CODE: byte := 0x18
  const LOADWIDE_CODE: byte := 0x19
  const FETCH_CODE: byte := 0x1A
  const FETCHWIDE_CODE: byte := 0x1B
  const IF_CODE: byte := 0x50
  const IFN_CODE: byte := 0x51
  const GOTO_CODE: byte := 0x52
  const CALL_CODE: byte := 0x53

  /** The opcode of each mnemonic written as a single byte. */
  function SimpleOpcode(t: string): (r: Option<byte>)
    ensures r.Some? ==> SimpleMnemonic(r.value) == Some(t)
  {
    if t == "nop" then Some(0x00)
    else if t == "add" then Some(0x20)
    else if t == "sub" then Some(0x21)
    else if t == "mul" then Some(0x22)
    else if t == "div" then Some(0x23)
    else if t == "rem" then Some(0x24)
    else if t == "neg" then Some(0x25)
    else if t == "not" then Some(0x30)
    else if t == "and" then Some(0x31)
    else if t == "or" then Some(0x32)
    else if t == "xor" then Some(0x33)
    else if t == "shl" then Some(0x34)
    else if t == "shr" then Some(0x35)
    else if t == "lnot" then Some(0x40)
    else if t == "land" then Some(0x41)
    else if t == "lor" then Some(0x42)
    else if t == "eq" then Some(0x43)
    else if t == "ne" then Some(0x44)
    else if t == "lt" then Some(0x45)
    else if t == "le" then Some(0x46)
    else if t == "gt" then Some(0x47)
    else if t == "ge" then Some(0x48)
    else if t == "return" then Some(0x54)
    else None
  }

  /** How a reader of the bytecode names a one-byte instruction. */
  function SimpleMnemonic(b: byte): Option<string> {
    match b
    case 0x00 => Some("nop")
    case 0x20 => Some("add")
    case 0x21 => Some("sub")
    case 0x22 => Some("mul")
    case 0x23 => Some("div")
    case 0x24 => Some("rem")
    case 0x25 => Some("neg")
    case 0x30 => Some("not")
    case 0x31 => Some("and")
    case 0x32 => Some("or")
    case 0x33 => Some("xor")
    case 0x34 => Some("shl")
    case 0x35 => Some("shr")
    case 0x40 => Some("lnot")
    case 0x41 => Some("land")
    case 0x42 => Some("lor")
    case 0x43 => Some("eq")
    case 0x44 => Some("ne")
    case 0x45 => Some("lt")
    case 0x46 => Some("le")
    case 0x47 => Some("gt")
    case 0x48 => Some("ge")
    case 0x54 => Some("return")
    case _ => None
  }

  /** Mnemonics whose encoding carries an operand. */
  const OperandMnemonics: set<string> :=
    {"push", "load", "loadwide", "fetch", "fetchwide", "if", "ifn", "goto", "call"}

  /** Every mnemonic the emission pass recognizes. */
  predicate IsMnemonic(t: string) {
    t in OperandMnemonics || SimpleOpcode(t).Some?
  }

  /** Tokens whose layout width and emitted width, or whose consumed
      operand tokens, differ between the two passes. */
  const Divergent: set<string> := {"call", "if", "ifn"}

  // ---------------------------------------------------------------- layout

  /** The width the layout pass counts for one instruction token and the
      position after the operand tokens it consumes. */
  datatype Step = Step(width: nat, next: nat)

  /** One iteration of passFunction's loop on a token that is neither the
      '.' sentinel nor a label. */
  function LayoutStep(toks: seq<string>, pos: nat): (r: Result<Step>)
    requires pos < |toks|
    ensures r.Ok? ==> pos < r.value.next <= |toks| && 1 <= r.value.width <= 9
    ensures toks[pos] !in OperandMnemonics ==> r == Ok(Step(1, pos + 1))
    ensures toks[pos] == "push" && pos + 1 < |toks| ==>
      (r.Ok? <==> Classify(toks[pos + 1]).Some?)
    ensures r.Err? ==> r.error == UnexpectedEof || r.error.UnknownPushType?
  {
    var t := toks[pos];
    if t == "push" then
      if pos + 1 >= |toks| then Err(UnexpectedEof)
      else
        match Classify(toks[pos + 1])
        case Some(BoolLit) => Ok(Step(2, pos + 2))
        case Some(_) => Ok(Step(9, pos + 2))
        case None => Err(UnknownPushType(toks[pos + 1]))
    else if t == "load" || t == "loadwide" || t == "fetch" || t == "fetchwide" || t == "goto" then
      if pos + 1 >= |toks| then Err(UnexpectedEof)
      else Ok(Step(if t == "goto" then 5 else 3, pos + 2))
    else if t == "call" then
      if pos + 2 >= |toks| then Err(UnexpectedEof) else Ok(Step(5, pos + 3))
    else if t == "if" || t == "ifn" then Ok(Step(5, pos + 1))
    else Ok(Step(1, pos + 1))
  }

  /** What the layout pass records: the label map, the size (the pc reached
      at the sentinel) and the position after the sentinel. */
  datatype Layout = Layout(labels: map<string, nat>, size: nat, next: nat)

  predicate LabelsWithin(labels: map<string, nat>, bound: nat) {
    forall l :: l in labels ==> labels[l] <= bound
  }

  /** passFunction's loop from position pos with the pc and labels so far. A
      label token binds its name to the current pc, replacing any earlier
      binding, and does not advance the pc. */
  function LayoutFrom(toks: seq<string>, pos: nat, pc: nat, labels: map<string, nat>): (r: Result<Layout>)
    requires pos <= |toks|
    ensures r.Ok? ==> pos < r.value.next <= |toks| && toks[r.value.next - 1] == "."
    ensures r.Ok? ==> pc <= r.value.size
    ensures r.Ok? ==> labels.Keys <= r.value.labels.Keys
    ensures r.Ok? && LabelsWithin(labels, pc) ==> LabelsWithin(r.value.labels, r.value.size)
    ensures pos == |toks| ==> r == Err(UnexpectedEof)
    ensures r.Err? ==> r.error == UnexpectedEof || r.error.UnknownPushType?
    decreases |toks| - pos
  {
    if pos == |toks| then Err(UnexpectedEof)
    else
      var t := toks[pos];
      if t == "." then Ok(Layout(labels, pc, pos + 1))
      else if IsLabel(t) then LayoutFrom(toks, pos + 1, pc, labels[LabelName(t) := pc])
      else
        var step :- LayoutStep(toks, pos);
        LayoutFrom(toks, step.next, pc + step.width, labels)
  }

  /** passFunction: the walk starts at pc 0 with no labels. The label map
      it records holds exactly the labels the body defines, each bound to the
      pc the walk had reached at the label's last definition. */
  function PassFunction(toks: seq<string>, pos: nat): (r: Result<Layout>)
    requires pos <= |toks|
    ensures r.Ok? ==> pos < r.value.next <= |toks|
    ensures r.Ok? ==> LabelsWithin(r.value.labels, r.value.size)
    ensures r.Ok? ==> forall l :: l in r.value.labels <==> LastLabel(toks, pos, l).Some?
    ensures r.Ok? ==> forall l :: LastLabel(toks, pos, l).Some? ==>
      r.value.labels[l] == PcAt(toks, pos, 0, LastLabel(toks, pos, l).value)
    ensures r.Err? ==> r.error == UnexpectedEof || r.error.UnknownPushType?
  {
    var r := LayoutFrom(toks, pos, 0, map[]);
    if r.Ok? then LayoutBindsAll(toks, pos, r.value); r else r
  }

  // -------------------------------------------------------------- emission

  /** A single decoded instruction: its mnemonic and its operand. */
  datatype Operand =
    | NoOperand
    | BoolOperand(b: bool)
    | IntOperand(bits: nat)
    | FloatOperand(bits: nat)
    | SlotOperand(id: nat)
    | TargetOperand(pc: nat)
    | CallOperand(id: nat, argc: nat)

  datatype Instr = Instr(mnemonic: string, operand: Operand)

  /** How the virtual machine reads the bytes of exactly one instruction. */
  function Decode(bs: seq<byte>): Option<Instr> {
    if |bs| == 0 then None
    else
      var op := bs[0];
      if op == PUSHB_CODE && |bs| == 2 then Some(Instr("push", BoolOperand(bs[1] != 0)))
      else if op == PUSHI_CODE && |bs| == 9 then Some(Instr("push", IntOperand(FromLE(bs[1..]))))
      else if op == PUSHF_CODE && |bs| == 9 then Some(Instr("push", FloatOperand(FromLE(bs[1..]))))
      else if op == LOAD_CODE && |bs| == 3 then Some(Instr("load", SlotOperand(FromLE(bs[1..]))))
      else if op == LOADWIDE_CODE && |bs| == 3 then Some(Instr("loadwide", SlotOperand(FromLE(bs[1..]))))
      else if op == FETCH_CODE && |bs| == 3 then Some(Instr("fetch", SlotOperand(FromLE(bs[1..]))))
      else if op == FETCHWIDE_CODE && |bs| == 3 then Some(Instr("fetchwide", SlotOperand(FromLE(bs[1..]))))
      else if op == IF_CODE && |bs| == 5 then Some(Instr("if", TargetOperand(FromLE(bs[1..]))))
      else if op == IFN_CODE && |bs| == 5 then Some(Instr("ifn", TargetOperand(FromLE(bs[1..]))))
      else if op == GOTO_CODE && |bs| == 5 then Some(Instr("goto", TargetOperand(FromLE(bs[1..]))))
      else if op == CALL_CODE && |bs| == 4 then Some(Instr("call", CallOperand(FromLE(bs[1..3]), bs[3])))
      else if |bs| == 1 && SimpleMnemonic(op).Some? then Some(Instr(SimpleMnemonic(op).value, NoOperand))
      else None
  }

  /** The value a push literal denotes: a boolean, the 64-bit two's
      complement of atol's result, or the bits of atof's double. */
  function PushMeaning(v: string, fc: FloatConv): Operand {
    match Classify(v)
    case Some(BoolLit) => BoolOperand(v == "true")
    case Some(IntLit) => IntOperand(Atoi(v) % U64)
    case _ => FloatOperand(fc.double(v) % U64)
  }

  predicate IsSlot(t: string) {
    t == "load" || t == "loadwide" || t == "fetch" || t == "fetchwide"
  }

  predicate IsBranch(t: string) {
    t == "if" || t == "ifn" || t == "goto"
  }

  /** load and fetch name locals, the wide forms name globals. */
  function SlotSpace(t: string): Space {
    if t == "load" || t == "fetch" then Locals else Globals
  }

  /** Where a branch's label token sits: "if" skips one token first. */
  function BranchAt(t: string, pos: nat): nat {
    if t == "if" then pos + 2 else pos + 1
  }

  /** The operand an instruction at pos denotes, read from the session as it
      stands after the instruction and from the layout's label map: the
      value a correct encoding must carry. */
  function Meaning(toks: seq<string>, pos: nat, s: Session, labels: map<string, nat>, fc: FloatConv): Operand
    requires pos < |toks|
  {
    var t := toks[pos];
    if t == "push" && pos + 1 < |toks| then PushMeaning(toks[pos + 1], fc)
    else if IsSlot(t) && pos + 1 < |toks| && toks[pos + 1] in s.Table(SlotSpace(t)) then
      SlotOperand(s.Table(SlotSpace(t))[toks[pos + 1]])
    else if IsBranch(t) && BranchAt(t, pos) < |toks| && toks[BranchAt(t, pos)] in labels then
      TargetOperand(labels[toks[BranchAt(t, pos)]] % U32)
    else if t == "call" && pos + 2 < |toks| && toks[pos + 1] in s.functionIds then
      CallOperand(s.functionIds[toks[pos + 1]], Atoi(toks[pos + 2]) % 256)
    else NoOperand
  }

  /** The bytes written for one instruction, the session afterwards and the
      position after the tokens it consumed. */
  datatype Emitted = Emitted(bytes: seq<byte>, session: Session, next: nat)

  function SlotCode(t: string): byte {
    if t == "load" then LOAD_CODE else if t == "loadwide" then LOADWIDE_CODE
    else if t == "fetch" then FETCH_CODE else FETCHWIDE_CODE
  }

  function BranchCode(t: string): byte {
    if t == "if" then IF_CODE else if t == "ifn" then IFN_CODE else GOTO_CODE
  }

  lemma DecodeSlot(t: string, id: u16)
    requires IsSlot(t)
    ensures Decode([SlotCode(t)] + LE(id, 2)) == Some(Instr(t, SlotOperand(id)))
  {
    var bytes := [SlotCode(t)] + LE(id, 2);
    FieldWidths();
    FromLEOfLE(id, 2);
    assert bytes[1..] == LE(id, 2);
  }

  lemma DecodeBranch(t: string, pc: int)
    requires IsBranch(t)
    ensures Decode([BranchCode(t)] + LE(pc, 4)) == Some(Instr(t, TargetOperand(pc % U32)))
  {
    var bytes := [BranchCode(t)] + LE(pc, 4);
    FieldWidths();
    FromLEOfLE(pc, 4);
    assert bytes[1..] == LE(pc, 4);
  }

  lemma DecodeCall(id: u16, argc: int)
    ensures Decode([CALL_CODE] + LE(id, 2) + LE(argc, 1)) == Some(Instr("call", CallOperand(id, argc % 256)))
  {
    var bytes := [CALL_CODE] + LE(id, 2) + LE(argc, 1);
    FieldWidths();
    FromLEOfLE(id, 2);
    assert |bytes| == 4 && bytes[0] == CALL_CODE;
    assert bytes[1..3] == LE(id, 2);
    assert bytes[3] == argc % 256;
  }

  lemma DecodeWide(op: byte, v: int)
    requires op == PUSHI_CODE || op == PUSHF_CODE
    ensures Decode([op] + LE(v, 8)) == Some(Instr("push",
      if op == PUSHI_CODE then IntOperand(v % U64) else FloatOperand(v % U64)))
  {
    var bytes := [op] + LE(v, 8);
    FieldWidths();
    FromLEOfLE(v, 8);
    assert bytes[1..] == LE(v, 8);
  }

  /** push: a boolean is PUSHB and one byte, an integer PUSHI and atol's
      eight bytes, a float PUSHF and atof's eight bytes. */
  function EmitPush(s: Session, toks: seq<string>, pos: nat, fc: FloatConv): (r: Result<Emitted>)
    requires pos < |toks| && toks[pos] == "push"
    ensures r.Ok? <==> pos + 1 < |toks| && Classify(toks[pos + 1]).Some?
    ensures r.Ok? ==> r.value.session == s && r.value.next == pos + 2
    ensures r.Ok? ==> |r.value.bytes| == (if Classify(toks[pos + 1]) == Some(BoolLit) then 2 else 9)
    ensures r.Ok? ==> Decode(r.value.bytes) == Some(Instr("push", PushMeaning(toks[pos + 1], fc)))
  {
    if pos + 1 >= |toks| then Err(UnexpectedEof)
    else
      var v := toks[pos + 1];
      match Classify(v)
      case Some(BoolLit) => Ok(Emitted([PUSHB_CODE, if v == "true" then 1 else 0], s, pos + 2))
      case Some(IntLit) =>
        DecodeWide(PUSHI_CODE, Atoi(v));
        Ok(Emitted([PUSHI_CODE] + LE(Atoi(v), 8), s, pos + 2))
      case Some(FloatLit) =>
        DecodeWide(PUSHF_CODE, fc.double(v));
        Ok(Emitted([PUSHF_CODE] + LE(fc.double(v), 8), s, pos + 2))
      case None => Err(UnknownPushType(v))
  }

  /** load, loadwide, fetch and fetchwide: opcode, then the 2-byte ID of the
      operand name. The load forms create a missing name, the fetch forms
      abort on it. */
  function EmitSlot(s: Session, toks: seq<string>, pos: nat): (r: Result<Emitted>)
    requires pos < |toks| && IsSlot(toks[pos])
    ensures r.Ok? <==> pos + 1 < |toks| && (toks[pos + 1] in s.Table(SlotSpace(toks[pos]))
                       || ((toks[pos] == "load" || toks[pos] == "loadwide") && s.functionCounter < 0xFFFF))
    ensures (pos + 1 < |toks| && (toks[pos] == "fetch" || toks[pos] == "fetchwide")
             && toks[pos + 1] !in s.Table(SlotSpace(toks[pos]))) ==> r == Err(NotFound(toks[pos + 1]))
    ensures r.Ok? ==> |r.value.bytes| == 3 && r.value.next == pos + 2
    ensures r.Ok? ==> (
      && toks[pos + 1] in r.value.session.Table(SlotSpace(toks[pos]))
      && Decode(r.value.bytes) == Some(Instr(toks[pos], SlotOperand(r.value.session.Table(SlotSpace(toks[pos]))[toks[pos + 1]]))))
    ensures r.Ok? ==> (
      && r.value.session.functionIds == s.functionIds
      && r.value.session.functions == s.functions
      && r.value.session.natives == s.natives)
    ensures r.Ok? && Valid(s) ==> Valid(r.value.session)
  {
    var t := toks[pos];
    if pos + 1 >= |toks| then Err(UnexpectedEof)
    else
      var found :- IdFor(s, SlotSpace(t), toks[pos + 1], t == "load" || t == "loadwide");
      DecodeSlot(t, found.id);
      Ok(Emitted([SlotCode(t)] + LE(found.id, 2), found.session, pos + 2))
  }

  /** if, ifn and goto: opcode, then the 4-byte pc of the label. */
  function EmitBranch(s: Session, labels: map<string, nat>, toks: seq<string>, pos: nat): (r: Result<Emitted>)
    requires pos < |toks| && IsBranch(toks[pos])
    ensures r.Ok? <==> BranchAt(toks[pos], pos) < |toks| && toks[BranchAt(toks[pos], pos)] in labels
    ensures BranchAt(toks[pos], pos) < |toks| && toks[BranchAt(toks[pos], pos)] !in labels ==>
      r == Err(LabelNotFound(toks[BranchAt(toks[pos], pos)]))
    ensures r.Ok? ==> |r.value.bytes| == 5 && r.value.next == BranchAt(toks[pos], pos) + 1 && r.value.session == s
    ensures r.Ok? ==> Decode(r.value.bytes) == Some(Instr(toks[pos], TargetOperand(labels[toks[BranchAt(toks[pos], pos)]] % U32)))
  {
    var t := toks[pos];
    var at := BranchAt(t, pos);
    if at >= |toks| then Err(UnexpectedEof)
    else
      var pc :- LabelPc(labels, toks[at]);
      DecodeBranch(t, pc);
      Ok(Emitted([BranchCode(t)] + LE(pc, 4), s, at + 1))
  }

  /** call: opcode, the callee's 2-byte ID, then atoi of the argument count
      truncated to one byte. The callee must already be known. */
  function EmitCall(s: Session, toks: seq<string>, pos: nat): (r: Result<Emitted>)
    requires pos < |toks| && toks[pos] == "call"
    ensures r.Ok? <==> pos + 2 < |toks| && toks[pos + 1] in s.functionIds
    ensures pos + 1 < |toks| && toks[pos + 1] !in s.functionIds ==> r == Err(NotFound(toks[pos + 1]))
    ensures r.Ok? ==> |r.value.bytes| == 4 && r.value.next == pos + 3 && r.value.session == s
    ensures r.Ok? ==>
      Decode(r.value.bytes) == Some(Instr("call", CallOperand(s.functionIds[toks[pos + 1]], Atoi(toks[pos + 2]) % 256)))
  {
    if pos + 1 >= |toks| then Err(UnexpectedEof)
    else
      var callee :- IdFor(s, Functions, toks[pos + 1], false);
      if pos + 2 >= |toks| then Err(UnexpectedEof)
      else
        var argc := Atoi(toks[pos + 2]);
        DecodeCall(callee.id, argc);
        Ok(Emitted([CALL_CODE] + LE(callee.id, 2) + LE(argc, 1), s, pos + 3))
  }

  /** One iteration of writeFunction's loop on a token that is neither the
      sentinel nor a label. */
  function EmitStep(s: Session, labels: map<string, nat>, toks: seq<string>, pos: nat, fc: FloatConv): (r: Result<Emitted>)
    requires pos < |toks|
    // an unknown mnemonic aborts here although the layout pass counted it as one byte
    ensures !IsMnemonic(toks[pos]) ==> r == Err(UnrecognizedMnemonic(toks[pos]))
    ensures r.Ok? ==> pos < r.value.next <= |toks|
    // emission never touches the function table or the layout records
    ensures r.Ok? ==>
      && r.value.session.functionIds == s.functionIds
      && r.value.session.functions == s.functions
      && r.value.session.natives == s.natives
    ensures r.Ok? && Valid(s) ==> Valid(r.value.session)
  {
    var t := toks[pos];
    if t == "push" then EmitPush(s, toks, pos, fc)
    else if IsSlot(t) then EmitSlot(s, toks, pos)
    else if IsBranch(t) then EmitBranch(s, labels, toks, pos)
    else if t == "call" then EmitCall(s, toks, pos)
    else
      match SimpleOpcode(t)
      case Some(op) => Ok(Emitted([op], s, pos + 1))
      case None => Err(UnrecognizedMnemonic(t))
  }

  /** The emission pass writes, mnemonic by mnemonic, what the layout pass
      counted, except for three: call is counted as five bytes but written
      as four, and if and ifn consume one and zero operand tokens when laid
      out but two and one when emitted. */
  lemma EmitMatchesLayout(s: Session, labels: map<string, nat>, toks: seq<string>, pos: nat, fc: FloatConv)
    requires pos < |toks| && EmitStep(s, labels, toks, pos, fc).Ok?
    ensures LayoutStep(toks, pos).Ok?
    ensures var e, l := EmitStep(s, labels, toks, pos, fc).value, LayoutStep(toks, pos).value;
      && (toks[pos] !in Divergent ==> |e.bytes| == l.width && e.next == l.next)
      && (toks[pos] == "call" ==> |e.bytes| == 4 && l.width == 5 && e.next == l.next)
      && (toks[pos] == "if" ==> |e.bytes| == 5 == l.width && e.next == l.next + 2)
      && (toks[pos] == "ifn" ==> |e.bytes| == 5 == l.width && e.next == l.next + 1)
  {
    var t := toks[pos];
    if t == "push" {
      assert EmitPush(s, toks, pos, fc).Ok?;
    } else if IsSlot(t) {
      assert EmitSlot(s, toks, pos).Ok?;
    } else if IsBranch(t) {
      assert EmitBranch(s, labels, toks, pos).Ok?;
    } else if t == "call" {
      assert EmitCall(s, toks, pos).Ok?;
    }
  }

  /** What is emitted for one instruction decodes back to that instruction,
      with the operand its tokens denote. */
  lemma EmitDecodes(s: Session, labels: map<string, nat>, toks: seq<string>, pos: nat, fc: FloatConv)
    requires pos < |toks| && EmitStep(s, labels, toks, pos, fc).Ok?
    ensures var e := EmitStep(s, labels, toks, pos, fc).value;
      Decode(e.bytes) == Some(Instr(toks[pos], Meaning(toks, pos, e.session, labels, fc)))
  {
    var t := toks[pos];
    if t == "push" {
      assert EmitPush(s, toks, pos, fc).Ok?;
    } else if IsSlot(t) {
      assert EmitSlot(s, toks, pos).Ok?;
    } else if IsBranch(t) {
      assert EmitBranch(s, labels, toks, pos).Ok?;
    } else if t == "call" {
      assert EmitCall(s, toks, pos).Ok?;
    } else {
      var op := SimpleOpcode(t).value;
      assert SimpleMnemonic(op) == Some(t);
    }
  }

  /** Reads of undefined names and jumps to undefined labels abort. */
  lemma EmitUndefinedAborts(s: Session, labels: map<string, nat>, toks: seq<string>, pos: nat, fc: FloatConv)
    requires pos + 1 < |toks|
    ensures (toks[pos] == "fetch" || toks[pos] == "fetchwide") && toks[pos + 1] !in s.Table(SlotSpace(toks[pos]))
      ==> EmitStep(s, labels, toks, pos, fc) == Err(NotFound(toks[pos + 1]))
    ensures toks[pos] == "call" && toks[pos + 1] !in s.functionIds
      ==> EmitStep(s, labels, toks, pos, fc) == Err(NotFound(toks[pos + 1]))
    ensures (toks[pos] == "goto" || toks[pos] == "ifn") && toks[pos + 1] !in labels
      ==> EmitStep(s, labels, toks, pos, fc) == Err(LabelNotFound(toks[pos + 1]))
  {
  }

  /** writeFunction's loop from position pos: labels are skipped, the
      sentinel ends the body. */
  function EmitFrom(s: Session, labels: map<string, nat>, toks: seq<string>, pos: nat, fc: FloatConv): (r: Result<Emitted>)
    requires pos <= |toks|
    ensures r.Ok? ==> pos < r.value.next <= |toks|
    ensures r.Ok? ==>
      && r.value.session.functionIds == s.functionIds
      && r.value.session.functions == s.functions
      && r.value.session.natives == s.natives
    ensures r.Ok? && Valid(s) ==> Valid(r.value.session)
    decreases |toks| - pos
  {
    if pos == |toks| then Err(UnexpectedEof)
    else
      var t := toks[pos];
      if t == "." then Ok(Emitted([], s, pos + 1))
      else if IsLabel(t) then EmitFrom(s, labels, toks, pos + 1, fc)
      else
        var e :- EmitStep(s, labels, toks, pos, fc);
        var rest :- EmitFrom(e.session, labels, toks, e.next, fc);
        Ok(Emitted(e.bytes + rest.bytes, rest.session, rest.next))
  }

  /** Emission of a body ends right after its '.' sentinel. */
  lemma {:induction false} EmitFromStops(s: Session, labels: map<string, nat>, toks: seq<string>, pos: nat, fc: FloatConv, em: Emitted)
    requires pos <= |toks| && EmitFrom(s, labels, toks, pos, fc) == Ok(em)
    ensures em.next - 1 < |toks| && toks[em.next - 1] == "."
    decreases |toks| - pos
  {
    if toks[pos] == "." {
    } else if IsLabel(toks[pos]) {
      EmitFromStops(s, labels, toks, pos + 1, fc, em);
    } else {
      var e, rest := EmitFromSplit(s, labels, toks, pos, fc, em);
      EmitFromStops(e.session, labels, toks, e.next, fc, rest);
    }
  }

  /** An instruction followed by the rest of the body. */
  lemma EmitFromSplit(s: Session, labels: map<string, nat>, toks: seq<string>, pos: nat, fc: FloatConv, em: Emitted)
      returns (e: Emitted, rest: Emitted)
    requires pos < |toks| && toks[pos] != "." && !IsLabel(toks[pos])
    requires EmitFrom(s, labels, toks, pos, fc) == Ok(em)
    ensures EmitStep(s, labels, toks, pos, fc) == Ok(e) && pos < e.next <= |toks|
    ensures EmitFrom(e.session, labels, toks, e.next, fc) == Ok(rest)
    ensures em.bytes == e.bytes + rest.bytes && em.next == rest.next
  {
    e := EmitStep(s, labels, toks, pos, fc).value;
    rest := EmitFrom(e.session, labels, toks, e.next, fc).value;
  }

  // ------------------------------------------------------------ agreement

  /** The bytes the layout pass counts from pos up to the sentinel, one
      LayoutStep at a time. */
  function WalkWidth(toks: seq<string>, pos: nat): nat
    requires pos <= |toks|
    decreases |toks| - pos
  {
    if pos == |toks| || toks[pos] == "." then 0
    else if IsLabel(toks[pos]) then WalkWidth(toks, pos + 1)
    else match LayoutStep(toks, pos)
      case Ok(step) => step.width + WalkWidth(toks, step.next)
      case Err(_) => 0
  }

  /** The position after the sentinel that ends the layout walk from pos. */
  function WalkEnd(toks: seq<string>, pos: nat): nat
    requires pos <= |toks|
    decreases |toks| - pos
  {
    if pos == |toks| then pos
    else if toks[pos] == "." then pos + 1
    else if IsLabel(toks[pos]) then WalkEnd(toks, pos + 1)
    else match LayoutStep(toks, pos)
      case Ok(step) => WalkEnd(toks, step.next)
      case Err(_) => pos
  }

  /** The number of call instructions the layout walk meets from pos up to
      the sentinel; operand tokens spelled "call" are not instructions. */
  function Calls(toks: seq<string>, pos: nat): nat
    requires pos <= |toks|
    decreases |toks| - pos
  {
    if pos == |toks| || toks[pos] == "." then 0
    else if IsLabel(toks[pos]) then Calls(toks, pos + 1)
    else match LayoutStep(toks, pos)
      case Ok(step) => (if toks[pos] == "call" then 1 else 0) + Calls(toks, step.next)
      case Err(_) => 0
  }

  /** The layout walk from pos up to the sentinel meets no if or ifn
      instruction; operand tokens spelled like them do not matter. */
  predicate NoCondBranch(toks: seq<string>, pos: nat)
    requires pos <= |toks|
    decreases |toks| - pos
  {
    if pos == |toks| || toks[pos] == "." then true
    else if IsLabel(toks[pos]) then NoCondBranch(toks, pos + 1)
    else
      && toks[pos] != "if" && toks[pos] != "ifn"
      && match LayoutStep(toks, pos)
         case Ok(step) => NoCondBranch(toks, step.next)
         case Err(_) => true
  }

  /** The position of the last "l:" the layout walk meets from pos up to
      the sentinel, if it meets one. */
  function LastLabel(toks: seq<string>, pos: nat, l: string): (r: Option<nat>)
    requires pos <= |toks|
    ensures r.Some? ==> pos <= r.value < |toks| && IsLabel(toks[r.value]) && LabelName(toks[r.value]) == l
    decreases |toks| - pos
  {
    if pos == |toks| || toks[pos] == "." then None
    else if IsLabel(toks[pos]) then
      match LastLabel(toks, pos + 1, l)
      case Some(q) => Some(q)
      case None => if LabelName(toks[pos]) == l then Some(pos) else None
    else match LayoutStep(toks, pos)
      case Ok(step) => LastLabel(toks, step.next, l)
      case Err(_) => None
  }

  /** The pc the layout walk from pos has reached at position q: the bytes
      counted from pos up to the sentinel less those counted from q on. */
  function PcAt(toks: seq<string>, pos: nat, pc: nat, q: nat): int
    requires pos <= |toks| && q <= |toks|
  {
    pc + WalkWidth(toks, pos) - WalkWidth(toks, q)
  }

  /** The layout pass binds every label to the pc reached at the last of its
      definitions on the walk; a label the walk does not define keeps the
      binding it had before, or stays unbound. */
  lemma {:induction false} LayoutBinds(toks: seq<string>, pos: nat, pc: nat, lbl: map<string, nat>, lay: Layout, l: string)
    requires pos <= |toks| && LayoutFrom(toks, pos, pc, lbl) == Ok(lay)
    ensures LastLabel(toks, pos, l).Some? ==>
      l in lay.labels && lay.labels[l] == PcAt(toks, pos, pc, LastLabel(toks, pos, l).value)
    ensures LastLabel(toks, pos, l).None? ==>
      (l in lay.labels <==> l in lbl) && (l in lbl ==> lay.labels[l] == lbl[l])
    decreases |toks| - pos
  {
    if toks[pos] == "." {
    } else if IsLabel(toks[pos]) {
      LayoutBinds(toks, pos + 1, pc, lbl[LabelName(toks[pos]) := pc], lay, l);
    } else {
      var step := LayoutFromInstr(toks, pos, pc, lbl, lay);
      LabelStep(toks, pos, step, l);
      LayoutBinds(toks, step.next, pc + step.width, lbl, lay, l);
    }
  }

  /** Past one instruction the walk's width shrinks by the instruction's
      and the last definition of l stays where it was. */
  lemma LabelStep(toks: seq<string>, pos: nat, step: Step, l: string)
    requires pos < |toks| && toks[pos] != "." && !IsLabel(toks[pos])
    requires LayoutStep(toks, pos) == Ok(step)
    ensures WalkWidth(toks, pos) == step.width + WalkWidth(toks, step.next)
    ensures LastLabel(toks, pos, l) == LastLabel(toks, step.next, l)
  {
  }

  /** LayoutBinds for every label, from pc 0 with no labels. */
  lemma LayoutBindsAll(toks: seq<string>, pos: nat, lay: Layout)
    requires pos <= |toks| && LayoutFrom(toks, pos, 0, map[]) == Ok(lay)
    ensures forall l :: l in lay.labels <==> LastLabel(toks, pos, l).Some?
    ensures forall l :: LastLabel(toks, pos, l).Some? ==> lay.labels[l] == PcAt(toks, pos, 0, LastLabel(toks, pos, l).value)
  {
    forall l
      ensures l in lay.labels <==> LastLabel(toks, pos, l).Some?
      ensures LastLabel(toks, pos, l).Some? ==> lay.labels[l] == PcAt(toks, pos, 0, LastLabel(toks, pos, l).value)
    {
      LayoutBinds(toks, pos, 0, map[], lay, l);
    }
  }

  /** The layout pass records as size the pc it starts from plus the width
      of its walk, and stops where the walk ends. */
  lemma {:induction false} LayoutWalk(toks: seq<string>, pos: nat, pc: nat, lbl: map<string, nat>, lay: Layout)
    requires pos <= |toks| && LayoutFrom(toks, pos, pc, lbl) == Ok(lay)
    ensures lay.size == pc + WalkWidth(toks, pos) && lay.next == WalkEnd(toks, pos)
    decreases |toks| - pos
  {
    if toks[pos] == "." {
    } else if IsLabel(toks[pos]) {
      LayoutWalk(toks, pos + 1, pc, lbl[LabelName(toks[pos]) := pc], lay);
    } else {
      var step := LayoutFromInstr(toks, pos, pc, lbl, lay);
      LayoutWalk(toks, step.next, pc + step.width, lbl, lay);
    }
  }

  /** Emission without if and ifn follows the layout walk: it stops where
      the walk ends and writes the walk's width less one byte per call. */
  lemma {:induction false} EmitWalk(s: Session, labels: map<string, nat>, toks: seq<string>, pos: nat, fc: FloatConv, em: Emitted)
    requires pos <= |toks| && EmitFrom(s, labels, toks, pos, fc) == Ok(em)
    requires NoCondBranch(toks, pos)
    ensures |em.bytes| + Calls(toks, pos) == WalkWidth(toks, pos) && em.next == WalkEnd(toks, pos)
    decreases |toks| - pos
  {
    if toks[pos] == "." {
    } else if IsLabel(toks[pos]) {
      assert toks[pos] != ".";
      EmitWalk(s, labels, toks, pos + 1, fc, em);
    } else {
      var e, rest := EmitFromSplit(s, labels, toks, pos, fc, em);
      var step := InstrWidths(s, labels, toks, pos, fc, e);
      WalkStep(toks, pos, step);
      EmitWalk(e.session, labels, toks, e.next, fc, rest);
    }
  }

  /** One instruction other than if and ifn: emission resumes where layout
      does, and writes the bytes layout counts, less one for call. */
  lemma InstrWidths(s: Session, labels: map<string, nat>, toks: seq<string>, pos: nat, fc: FloatConv, e: Emitted)
      returns (step: Step)
    requires pos < |toks| && toks[pos] != "if" && toks[pos] != "ifn"
    requires EmitStep(s, labels, toks, pos, fc) == Ok(e)
    ensures LayoutStep(toks, pos) == Ok(step)
    ensures |e.bytes| + (if toks[pos] == "call" then 1 else 0) == step.width && e.next == step.next
  {
    EmitMatchesLayout(s, labels, toks, pos, fc);
    step := LayoutStep(toks, pos).value;
  }

  /** The walk functions move past one instruction as the layout pass does. */
  lemma WalkStep(toks: seq<string>, pos: nat, step: Step)
    requires pos < |toks| && toks[pos] != "." && !IsLabel(toks[pos])
    requires LayoutStep(toks, pos) == Ok(step)
    ensures WalkWidth(toks, pos) == step.width + WalkWidth(toks, step.next)
    ensures WalkEnd(toks, pos) == WalkEnd(toks, step.next)
    ensures Calls(toks, pos) == (if toks[pos] == "call" then 1 else 0) + Calls(toks, step.next)
    ensures NoCondBranch(toks, pos) ==> NoCondBranch(toks, step.next)
  {
  }

  /** One instruction step of the layout walk. */
  lemma {:induction false} LayoutFromInstr(toks: seq<string>, pos: nat, pc: nat, lbl: map<string, nat>, lay: Layout)
      returns (step: Step)
    requires pos < |toks| && toks[pos] != "." && !IsLabel(toks[pos])
    requires LayoutFrom(toks, pos, pc, lbl) == Ok(lay)
    ensures LayoutStep(toks, pos) == Ok(step)
    ensures LayoutFrom(toks, step.next, pc + step.width, lbl) == Ok(lay)
  {
    step := LayoutStep(toks, pos).value;
  }

  /** For a body without if and ifn, both walks stop after the same
      sentinel, and the layout pass counts one byte more than is written for
      every call on the way. */
  lemma WidthsAgree(s: Session, labels: map<string, nat>, toks: seq<string>,
                    pos: nat, pc: nat, lbl: map<string, nat>, fc: FloatConv,
                    lay: Layout, em: Emitted)
    requires pos <= |toks|
    requires LayoutFrom(toks, pos, pc, lbl) == Ok(lay) && EmitFrom(s, labels, toks, pos, fc) == Ok(em)
    requires NoCondBranch(toks, pos)
    ensures |em.bytes| + Calls(toks, pos) == lay.size - pc && em.next == lay.next
  {
    LayoutWalk(toks, pos, pc, lbl, lay);
    EmitWalk(s, labels, toks, pos, fc, em);
  }

  /** A body laid out and emitted from its start, without if and ifn: the
      recorded size is the emitted length plus one per call, so a body
      without call writes exactly its recorded size. */
  lemma FunctionWidthsAgree(s: Session, toks: seq<string>, pos: nat, fc: FloatConv)
    requires pos <= |toks|
    requires PassFunction(toks, pos).Ok?
    requires EmitFrom(s, PassFunction(toks, pos).value.labels, toks, pos, fc).Ok?
    requires NoCondBranch(toks, pos)
    ensures |EmitFrom(s, PassFunction(toks, pos).value.labels, toks, pos, fc).value.bytes| + Calls(toks, pos)
            == PassFunction(toks, pos).value.size
  {
    var lay := PassFunction(toks, pos).value;
    WidthsAgree(s, lay.labels, toks, pos, 0, map[], fc, lay, EmitFrom(s, lay.labels, toks, pos, fc).value);
  }

  /** A token the layout pass counts as a one-byte instruction of its own:
      neither the sentinel, nor a label, nor a mnemonic with operands. */
  predicate Plain(t: string) {
    t != "." && !IsLabel(t) && t !in OperandMnemonics
  }

  /** Along the emission walk from pos up to the sentinel, every if is
      followed by two plain tokens and every ifn by one. The layout walk
      reads those tokens as one-byte instructions, and so falls back in step
      with emission right after them. */
  predicate Resyncs(toks: seq<string>, pos: nat)
    requires pos <= |toks|
    decreases |toks| - pos
  {
    if pos == |toks| || toks[pos] == "." then true
    else if IsLabel(toks[pos]) then Resyncs(toks, pos + 1)
    else if toks[pos] == "if" then
      pos + 2 < |toks| && Plain(toks[pos + 1]) && Plain(toks[pos + 2]) && Resyncs(toks, pos + 3)
    else if toks[pos] == "ifn" then
      pos + 1 < |toks| && Plain(toks[pos + 1]) && Resyncs(toks, pos + 2)
    else match LayoutStep(toks, pos)
      case Ok(step) => Resyncs(toks, step.next)
      case Err(_) => true
  }

  /** The bytes the layout pass counts beyond those emitted, along the
      emission walk from pos: one for each call, two for each if (its two
      operand tokens) and one for each ifn (its label token). */
  function Overcount(toks: seq<string>, pos: nat): nat
    requires pos <= |toks|
    decreases |toks| - pos
  {
    if pos == |toks| || toks[pos] == "." then 0
    else if IsLabel(toks[pos]) then Overcount(toks, pos + 1)
    else if toks[pos] == "if" then (if pos + 2 < |toks| then 2 + Overcount(toks, pos + 3) else 0)
    else if toks[pos] == "ifn" then (if pos + 1 < |toks| then 1 + Overcount(toks, pos + 2) else 0)
    else match LayoutStep(toks, pos)
      case Ok(step) => (if toks[pos] == "call" then 1 else 0) + Overcount(toks, step.next)
      case Err(_) => 0
  }

  /** A plain token is one byte of the layout walk. */
  lemma PlainSkip(toks: seq<string>, q: nat)
    requires q < |toks| && Plain(toks[q])
    ensures WalkWidth(toks, q) == 1 + WalkWidth(toks, q + 1) && WalkEnd(toks, q) == WalkEnd(toks, q + 1)
  {
    assert LayoutStep(toks, q) == Ok(Step(1, q + 1));
  }

  /** Past an if and its two plain operand tokens, the layout walk has
      counted seven bytes. */
  lemma IfSkip(toks: seq<string>, pos: nat)
    requires pos < |toks| && toks[pos] == "if" && Resyncs(toks, pos)
    ensures WalkWidth(toks, pos) == 7 + WalkWidth(toks, pos + 3) && WalkEnd(toks, pos) == WalkEnd(toks, pos + 3)
    ensures Overcount(toks, pos) == 2 + Overcount(toks, pos + 3) && Resyncs(toks, pos + 3)
  {
    WalkStep(toks, pos, Step(5, pos + 1));
    PlainSkip(toks, pos + 1);
    PlainSkip(toks, pos + 2);
  }

  /** Past an ifn and its plain label token, the layout walk has counted six
      bytes. */
  lemma IfnSkip(toks: seq<string>, pos: nat)
    requires pos < |toks| && toks[pos] == "ifn" && Resyncs(toks, pos)
    ensures WalkWidth(toks, pos) == 6 + WalkWidth(toks, pos + 2) && WalkEnd(toks, pos) == WalkEnd(toks, pos + 2)
    ensures Overcount(toks, pos) == 1 + Overcount(toks, pos + 2) && Resyncs(toks, pos + 2)
  {
    WalkStep(toks, pos, Step(5, pos + 1));
    PlainSkip(toks, pos + 1);
  }

  /** Past any other instruction the overcount and the resync condition move
      on as the layout walk does. */
  lemma ResyncStep(toks: seq<string>, pos: nat, step: Step)
    requires pos < |toks| && toks[pos] != "." && !IsLabel(toks[pos]) && toks[pos] != "if" && toks[pos] != "ifn"
    requires LayoutStep(toks, pos) == Ok(step)
    ensures Overcount(toks, pos) == (if toks[pos] == "call" then 1 else 0) + Overcount(toks, step.next)
    ensures Resyncs(toks, pos) ==> Resyncs(toks, step.next)
  {
  }

  /** Emission of a body that resyncs stops where the layout walk ends and
      writes the walk's width less the overcount. */
  lemma {:induction false} EmitResyncs(s: Session, labels: map<string, nat>, toks: seq<string>, pos: nat, fc: FloatConv, em: Emitted)
    requires pos <= |toks| && EmitFrom(s, labels, toks, pos, fc) == Ok(em)
    requires Resyncs(toks, pos)
    ensures |em.bytes| + Overcount(toks, pos) == WalkWidth(toks, pos) && em.next == WalkEnd(toks, pos)
    decreases |toks| - pos
  {
    if toks[pos] == "." {
    } else if IsLabel(toks[pos]) {
      assert toks[pos] != ".";
      EmitResyncs(s, labels, toks, pos + 1, fc, em);
    } else {
      var e, rest := EmitFromSplit(s, labels, toks, pos, fc, em);
      ResyncInstr(s, labels, toks, pos, fc, e);
      EmitResyncs(e.session, labels, toks, e.next, fc, rest);
    }
  }

  /** One instruction of a body that resyncs: what it writes plus what the
      layout pass overcounts for it is what the layout walk counts up to
      where emission resumes, and the walk ends where it ends from there. */
  lemma ResyncInstr(s: Session, labels: map<string, nat>, toks: seq<string>, pos: nat, fc: FloatConv, e: Emitted)
    requires pos < |toks| && toks[pos] != "." && !IsLabel(toks[pos])
    requires EmitStep(s, labels, toks, pos, fc) == Ok(e) && Resyncs(toks, pos)
    ensures e.next <= |toks|
    ensures |e.bytes| + Overcount(toks, pos) + WalkWidth(toks, e.next) == WalkWidth(toks, pos) + Overcount(toks, e.next)
    ensures WalkEnd(toks, pos) == WalkEnd(toks, e.next) && Resyncs(toks, e.next)
  {
    if toks[pos] == "if" || toks[pos] == "ifn" {
      CondResumes(s, labels, toks, pos, fc, e);
      if toks[pos] == "if" { IfSkip(toks, pos); } else { IfnSkip(toks, pos); }
    } else {
      var step := InstrWidths(s, labels, toks, pos, fc, e);
      WalkStep(toks, pos, step);
      ResyncStep(toks, pos, step);
    }
  }

  /** Emission of if resumes three tokens on, of ifn two, after five bytes. */
  lemma CondResumes(s: Session, labels: map<string, nat>, toks: seq<string>, pos: nat, fc: FloatConv, e: Emitted)
    requires pos < |toks| && (toks[pos] == "if" || toks[pos] == "ifn")
    requires EmitStep(s, labels, toks, pos, fc) == Ok(e)
    ensures |e.bytes| == 5 && e.next == (if toks[pos] == "if" then pos + 3 else pos + 2)
  {
    EmitMatchesLayout(s, labels, toks, pos, fc);
  }

  /** For a body that resyncs, both walks stop after the same sentinel, and
      the layout pass counts one byte more than is written for every call,
      two for every if and one for every ifn. */
  lemma ResyncWidthsAgree(s: Session, labels: map<string, nat>, toks: seq<string>,
                          pos: nat, pc: nat, lbl: map<string, nat>, fc: FloatConv,
                          lay: Layout, em: Emitted)
    requires pos <= |toks|
    requires LayoutFrom(toks, pos, pc, lbl) == Ok(lay) && EmitFrom(s, labels, toks, pos, fc) == Ok(em)
    requires Resyncs(toks, pos)
    ensures |em.bytes| + Overcount(toks, pos) == lay.size - pc && em.next == lay.next
  {
    LayoutWalk(toks, pos, pc, lbl, lay);
    EmitResyncs(s, labels, toks, pos, fc, em);
  }

  /** A body laid out and emitted from its start that resyncs: the recorded
      size is the emitted length plus the overcount. */
  lemma FunctionResyncs(s: Session, toks: seq<string>, pos: nat, fc: FloatConv)
    requires pos <= |toks|
    requires PassFunction(toks, pos).Ok?
    requires EmitFrom(s, PassFunction(toks, pos).value.labels, toks, pos, fc).Ok?
    requires Resyncs(toks, pos)
    ensures |EmitFrom(s, PassFunction(toks, pos).value.labels, toks, pos, fc).value.bytes| + Overcount(toks, pos)
            == PassFunction(toks, pos).value.size
  {
    var lay := PassFunction(toks, pos).value;
    ResyncWidthsAgree(s, lay.labels, toks, pos, 0, map[], fc, lay, EmitFrom(s, lay.labels, toks, pos, fc).value);
  }

  /** A walk without if and ifn resyncs trivially, and its overcount is its
      number of calls. */
  lemma {:induction false} NoCondBranchResyncs(toks: seq<string>, pos: nat)
    requires pos <= |toks| && NoCondBranch(toks, pos)
    ensures Resyncs(toks, pos) && Overcount(toks, pos) == Calls(toks, pos)
    decreases |toks| - pos
  {
    if pos == |toks| || toks[pos] == "." {
    } else if IsLabel(toks[pos]) {
      NoCondBranchResyncs(toks, pos + 1);
    } else if LayoutStep(toks, pos).Ok? {
      var step := LayoutStep(toks, pos).value;
      WalkStep(toks, pos, step);
      ResyncStep(toks, pos, step);
      NoCondBranchResyncs(toks, step.next);
    }
  }

  /** A body that branches with "if" to a label bound at its start. */
  const IfBody: seq<string> := ["L:", "if", "c", "L", "."]

  /** The layout pass counts "if" as five bytes and then each of the two
      tokens the emission pass will take as operands as one more byte. */
  lemma IfLayout()
    ensures PassFunction(IfBody, 0) == Ok(Layout(map["L" := 0], 7, 5))
  {
    assert LabelName("L:") == "L";
    assert LayoutFrom(IfBody, 3, 6, map["L" := 0]) == Ok(Layout(map["L" := 0], 7, 5));
    assert LayoutFrom(IfBody, 2, 5, map["L" := 0]) == Ok(Layout(map["L" := 0], 7, 5));
  }

  /** The emission pass writes the five bytes of one branch. */
  lemma IfEmits(s: Session, fc: FloatConv)
    ensures EmitFrom(s, map["L" := 0], IfBody, 0, fc).Ok?
    ensures |EmitFrom(s, map["L" := 0], IfBody, 0, fc).value.bytes| == 5
  {
    assert EmitStep(s, map["L" := 0], IfBody, 1, fc).value.next == 4;
    assert EmitFrom(s, map["L" := 0], IfBody, 4, fc) == Ok(Emitted([], s, 5));
  }

  /** "if" is laid out as taking no operand token, so the two tokens its
      emission consumes are each counted as a one-byte instruction: the
      recorded size exceeds the bytes written by two. */
  lemma IfOvercounts(s: Session, fc: FloatConv)
    ensures PassFunction(IfBody, 0).Ok? && EmitFrom(s, PassFunction(IfBody, 0).value.labels, IfBody, 0, fc).Ok?
    ensures PassFunction(IfBody, 0).value.size
         == |EmitFrom(s, PassFunction(IfBody, 0).value.labels, IfBody, 0, fc).value.bytes| + 2
  {
    IfLayout();
    IfEmits(s, fc);
  }

  /** A body that branches with "ifn" to a label bound at its start. */
  const IfnBody: seq<string> := ["L:", "ifn", "L", "."]

  lemma IfnLayout()
    ensures PassFunction(IfnBody, 0) == Ok(Layout(map["L" := 0], 6, 4))
  {
    assert LabelName("L:") == "L";
    assert LayoutFrom(IfnBody, 2, 5, map["L" := 0]) == Ok(Layout(map["L" := 0], 6, 4));
  }

  lemma IfnEmits(s: Session, fc: FloatConv)
    ensures EmitFrom(s, map["L" := 0], IfnBody, 0, fc).Ok?
    ensures |EmitFrom(s, map["L" := 0], IfnBody, 0, fc).value.bytes| == 5
  {
    assert EmitStep(s, map["L" := 0], IfnBody, 1, fc).value.next == 3;
    assert EmitFrom(s, map["L" := 0], IfnBody, 3, fc) == Ok(Emitted([], s, 4));
  }

  /** "ifn" is laid out as taking no operand token but emitted as taking
      one, which the layout pass counts as a further byte. */
  lemma IfnOvercounts(s: Session, fc: FloatConv)
    ensures PassFunction(IfnBody, 0).Ok? && EmitFrom(s, PassFunction(IfnBody, 0).value.labels, IfnBody, 0, fc).Ok?
    ensures PassFunction(IfnBody, 0).value.size
         == |EmitFrom(s, PassFunction(IfnBody, 0).value.labels, IfnBody, 0, fc).value.bytes| + 1
  {
    IfnLayout();
    IfnEmits(s, fc);
  }

  /** A body that calls f with no arguments. */
  const CallBody: seq<string> := ["call", "f", "0", "."]

  /** "call" is counted as five bytes but written as four. */
  lemma CallOvercounts(s: Session, fc: FloatConv)
    requires "f" in s.functionIds
    ensures PassFunction(CallBody, 0).Ok? && EmitFrom(s, PassFunction(CallBody, 0).value.labels, CallBody, 0, fc).Ok?
    ensures PassFunction(CallBody, 0).value.size
         == |EmitFrom(s, PassFunction(CallBody, 0).value.labels, CallBody, 0, fc).value.bytes| + 1
  {
    assert LayoutFrom(CallBody, 3, 5, map[]) == Ok(Layout(map[], 5, 4));
    assert EmitFrom(s, map[], CallBody, 3, fc) == Ok(Emitted([], s, 4));
  }
}
