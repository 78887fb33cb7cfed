/** The two walks over an a11 function body. The layout pass sizes every
    instruction and binds labels to byte offsets; the emission pass re-walks
    the same tokens and writes the typed, width-suffixed opcodes with 4- or
    8-byte little-endian operands: local and global memory offsets, label
    pcs and function IDs. */
module A11Function {
  import opened Base
  import opened Literals
  import opened A11Session

  const PUSH4_CODE: byte := 0x08
  const PUSH8_CODE: byte := 0x09
  const LOAD4_CODE: byte := 0x10
  const LOAD8_CODE: byte := 0x11
  const LOADWIDE4_CODE: byte := 0x12
  const LOADWIDE8_CODE: byte := 0x13
  const FETCH4_CODE: byte := 0x18
  const FETCH8_CODE: byte := 0x19
  const FETCHWIDE4_CODE: byte := 0x1A
  const FETCHWIDE8_CODE: byte := 0x1B
  const GOTO_CODE: byte := 0xD0
  const CALL_CODE: byte := 0xD1
  const IF_CODE: byte := 0xD4
  const IFN_CODE: byte := 0xD5

  /** The number of operand bytes that follow an opcode. */
  function OperandWidth(op: byte): nat {
    if op == PUSH8_CODE then 8
    else if op == PUSH4_CODE || LOAD4_CODE <= op <= LOADWIDE8_CODE || FETCH4_CODE <= op <= FETCHWIDE8_CODE
            || op == GOTO_CODE || op == CALL_CODE then 4
    else 0
  }

  /** The one-byte stack, heap and control instructions. */
  function StackOpcode(t: string): (r: Option<byte>)
    ensures r.Some? ==> StackMnemonic(r.value) == Some(t)
    ensures r.Some? ==> (r.value < 0x50 || r.value == 0xD2) && OperandWidth(r.value) == 0
  {
    if t == "nop" then Some(0x00)
    else if t == "pop4" then Some(0x0C)
    else if t == "pop8" then Some(0x0D)
    else if t == "alloc" then Some(0x20)
    else if t == "free" then Some(0x21)
    else if t == "refl1" then Some(0x30)
    else if t == "refl2" then Some(0x31)
    else if t == "refl4" then Some(0x32)
    else if t == "refl8" then Some(0x33)
    else if t == "extr1" then Some(0x38)
    else if t == "extr2" then Some(0x39)
    else if t == "extr4" then Some(0x3A)
    else if t == "extr8" then Some(0x3B)
    else if t == "swap4" then Some(0x40)
    else if t == "swap8" then Some(0x41)
    else if t == "swap48" then Some(0x42)
    else if t == "swap84" then Some(0x43)
    else if t == "dup4" then Some(0x48)
    else if t == "dup8" then Some(0x49)
    else if t == "return" then Some(0xD2)
    else None
  }

  function StackMnemonic(b: byte): Option<string> {
    match b
    case 0x00 => Some("nop")
    case 0x0C => Some("pop4")
    case 0x0D => Some("pop8")
    case 0x20 => Some("alloc")
    case 0x21 => Some("free")
    case 0x30 => Some("refl1")
    case 0x31 => Some("refl2")
    case 0x32 => Some("refl4")
    case 0x33 => Some("refl8")
    case 0x38 => Some("extr1")
    case 0x39 => Some("extr2")
    case 0x3A => Some("extr4")
    case 0x3B => Some("extr8")
    case 0x40 => Some("swap4")
    case 0x41 => Some("swap8")
    case 0x42 => Some("swap48")
    case 0x43 => Some("swap84")
    case 0x48 => Some("dup4")
    case 0x49 => Some("dup8")
    case 0xD2 => Some("return")
    case _ => None
  }

  /** The one-byte arithmetic instructions. */
  function ArithOpcode(t: string): (r: Option<byte>)
    ensures r.Some? ==> ArithMnemonic(r.value) == Some(t)
    ensures r.Some? ==> 0x50 <= r.value < 0x80 && OperandWidth(r.value) == 0
  {
    if t == "addi4" then Some(0x50)
    else if t == "addi8" then Some(0x51)
    else if t == "addf4" then Some(0x52)
    else if t == "addf8" then Some(0x53)
    else if t == "subi4" then Some(0x54)
    else if t == "subi8" then Some(0x55)
    else if t == "subf4" then Some(0x56)
    else if t == "subf8" then Some(0x57)
    else if t == "muli4" then Some(0x58)
    else if t == "muli8" then Some(0x59)
    else if t == "mulf4" then Some(0x5A)
    else if t == "mulf8" then Some(0x5B)
    else if t == "divi4" then Some(0x5C)
    else if t == "divi8" then Some(0x5D)
    else if t == "divu4" then Some(0x5E)
    else if t == "divu8" then Some(0x5F)
    else if t == "divf4" then Some(0x60)
    else if t == "divf8" then Some(0x61)
    else if t == "remi4" then Some(0x62)
    else if t == "remi8" then Some(0x63)
    else if t == "remu4" then Some(0x64)
    else if t == "remu8" then Some(0x65)
    else if t == "negi4" then Some(0x66)
    else if t == "negi8" then Some(0x67)
    else if t == "negf4" then Some(0x68)
    else if t == "negf8" then Some(0x69)
    else None
  }

  function ArithMnemonic(b: byte): Option<string> {
    match b
    case 0x50 => Some("addi4")
    case 0x51 => Some("addi8")
    case 0x52 => Some("addf4")
    case 0x53 => Some("addf8")
    case 0x54 => Some("subi4")
    case 0x55 => Some("subi8")
    case 0x56 => Some("subf4")
    case 0x57 => Some("subf8")
    case 0x58 => Some("muli4")
    case 0x59 => Some("muli8")
    case 0x5A => Some("mulf4")
    case 0x5B => Some("mulf8")
    case 0x5C => Some("divi4")
    case 0x5D => Some("divi8")
    case 0x5E => Some("divu4")
    case 0x5F => Some("divu8")
    case 0x60 => Some("divf4")
    case 0x61 => Some("divf8")
    case 0x62 => Some("remi4")
    case 0x63 => Some("remi8")
    case 0x64 => Some("remu4")
    case 0x65 => Some("remu8")
    case 0x66 => Some("negi4")
    case 0x67 => Some("negi8")
    case 0x68 => Some("negf4")
    case 0x69 => Some("negf8")
    case _ => None
  }

  /** The one-byte shift, bitwise and logical instructions. */
  function BitsOpcode(t: string): (r: Option<byte>)
    ensures r.Some? ==> BitsMnemonic(r.value) == Some(t)
    ensures r.Some? ==> 0x80 <= r.value < 0xB0 && OperandWidth(r.value) == 0
  {
    if t == "shl4" then Some(0x80)
    else if t == "shl8" then Some(0x81)
    else if t == "shr4" then Some(0x82)
    else if t == "shr8" then Some(0x83)
    else if t == "shru4" then Some(0x84)
    else if t == "shru8" then Some(0x85)
    else if t == "bnot4" then Some(0x86)
    else if t == "bnot8" then Some(0x87)
    else if t == "band4" then Some(0x88)
    else if t == "band8" then Some(0x89)
    else if t == "bxor4" then Some(0x8A)
    else if t == "bxor8" then Some(0x8B)
    else if t == "bor4" then Some(0x8C)
    else if t == "bor8" then Some(0x8D)
    else if t == "lnot4" then Some(0xA0)
    else if t == "lnot8" then Some(0xA1)
    else if t == "land4" then Some(0xA2)
    else if t == "land8" then Some(0xA3)
    else if t == "lor4" then Some(0xA4)
    else if t == "lor8" then Some(0xA5)
    else None
  }

  function BitsMnemonic(b: byte): Option<string> {
    match b
    case 0x80 => Some("shl4")
    case 0x81 => Some("shl8")
    case 0x82 => Some("shr4")
    case 0x83 => Some("shr8")
    case 0x84 => Some("shru4")
    case 0x85 => Some("shru8")
    case 0x86 => Some("bnot4")
    case 0x87 => Some("bnot8")
    case 0x88 => Some("band4")
    case 0x89 => Some("band8")
    case 0x8A => Some("bxor4")
    case 0x8B => Some("bxor8")
    case 0x8C => Some("bor4")
    case 0x8D => Some("bor8")
    case 0xA0 => Some("lnot4")
    case 0xA1 => Some("lnot8")
    case 0xA2 => Some("land4")
    case 0xA3 => Some("land8")
    case 0xA4 => Some("lor4")
    case 0xA5 => Some("lor8")
    case _ => None
  }

  /** The one-byte conversion instructions. */
  function ConvOpcode(t: string): (r: Option<byte>)
    ensures r.Some? ==> ConvMnemonic(r.value) == Some(t)
    ensures r.Some? ==> 0xB0 <= r.value < 0xD0 && OperandWidth(r.value) == 0
  {
    if t == "ci14" then Some(0xB0)
    else if t == "ci24" then Some(0xB1)
    else if t == "ci41" then Some(0xB2)
    else if t == "ci42" then Some(0xB3)
    else if t == "ci48" then Some(0xB4)
    else if t == "ci84" then Some(0xB5)
    else if t == "cf48" then Some(0xB6)
    else if t == "cf84" then Some(0xB7)
    else if t == "cfi4" then Some(0xB8)
    else if t == "cfi8" then Some(0xB9)
    else if t == "cif4" then Some(0xBA)
    else if t == "cif8" then Some(0xBB)
    else None
  }

  function ConvMnemonic(b: byte): Option<string> {
    match b
    case 0xB0 => Some("ci14")
    case 0xB1 => Some("ci24")
    case 0xB2 => Some("ci41")
    case 0xB3 => Some("ci42")
    case 0xB4 => Some("ci48")
    case 0xB5 => Some("ci84")
    case 0xB6 => Some("cf48")
    case 0xB7 => Some("cf84")
    case 0xB8 => Some("cfi4")
    case 0xB9 => Some("cfi8")
    case 0xBA => Some("cif4")
    case 0xBB => Some("cif8")
    case _ => None
  }

  /** The one-byte comparison instructions. */
  function CompareOpcode(t: string): (r: Option<byte>)
    ensures r.Some? ==> CompareMnemonic(r.value) == Some(t)
    ensures r.Some? ==> 0xD0 <= r.value && r.value != 0xD2 && OperandWidth(r.value) == 0
  {
    if t == "ltnl" then Some(0xDA)
    else if t == "lenl" then Some(0xDB)
    else if t == "gtnl" then Some(0xDC)
    else if t == "genl" then Some(0xDD)
    else if t == "eqnl" then Some(0xDE)
    else if t == "nenl" then Some(0xDF)
    else if t == "cmp4" then Some(0xE0)
    else if t == "cmp8" then Some(0xE1)
    else if t == "icmp4" then Some(0xE2)
    else if t == "icmp8" then Some(0xE3)
    else if t == "iucmp4" then Some(0xE4)
    else if t == "iucmp8" then Some(0xE5)
    else if t == "iucmpr4" then Some(0xE6)
    else if t == "iucmpr8" then Some(0xE7)
    else if t == "fcmp4" then Some(0xE8)
    else if t == "fcmp8" then Some(0xE9)
    else if t == "ficmp4" then Some(0xEA)
    else if t == "ficmp8" then Some(0xEB)
    else if t == "ficmpr4" then Some(0xEC)
    else if t == "ficmpr8" then Some(0xED)
    else if t == "fucmp4" then Some(0xEE)
    else if t == "fucmp8" then Some(0xEF)
    else if t == "fucmpr4" then Some(0xF1)
    else if t == "fucmpr8" then Some(0xF2)
    else None
  }

  function CompareMnemonic(b: byte): Option<string> {
    match b
    case 0xDA => Some("ltnl")
    case 0xDB => Some("lenl")
    case 0xDC => Some("gtnl")
    case 0xDD => Some("genl")
    case 0xDE => Some("eqnl")
    case 0xDF => Some("nenl")
    case 0xE0 => Some("cmp4")
    case 0xE1 => Some("cmp8")
    case 0xE2 => Some("icmp4")
    case 0xE3 => Some("icmp8")
    case 0xE4 => Some("iucmp4")
    case 0xE5 => Some("iucmp8")
    case 0xE6 => Some("iucmpr4")
    case 0xE7 => Some("iucmpr8")
    case 0xE8 => Some("fcmp4")
    case 0xE9 => Some("fcmp8")
    case 0xEA => Some("ficmp4")
    case 0xEB => Some("ficmp8")
    case 0xEC => Some("ficmpr4")
    case 0xED => Some("ficmpr8")
    case 0xEE => Some("fucmp4")
    case 0xEF => Some("fucmp8")
    case 0xF1 => Some("fucmpr4")
    case 0xF2 => Some("fucmpr8")
    case _ => None
  }
  /** The opcode of each mnemonic written as a single byte, if and ifn
      aside. */
  function SimpleOpcode(t: string): (r: Option<byte>)
    ensures r.Some? ==> SimpleMnemonic(r.value) == Some(t)
    ensures r.Some? ==> OperandWidth(r.value) == 0
  {
    match StackOpcode(t)
    case Some(op) => Some(op)
    case None =>
      match ArithOpcode(t)
      case Some(op) => Some(op)
      case None =>
        match BitsOpcode(t)
        case Some(op) => Some(op)
        case None =>
          match ConvOpcode(t)
          case Some(op) => Some(op)
          case None => CompareOpcode(t)
  }

  /** How a reader of the bytecode names a one-byte instruction. */
  function SimpleMnemonic(b: byte): Option<string> {
    if b < 0x50 || b == 0xD2 then StackMnemonic(b)
    else if b < 0x80 then ArithMnemonic(b)
    else if b < 0xB0 then BitsMnemonic(b)
    else if b < 0xD0 then ConvMnemonic(b)
    else CompareMnemonic(b)
  }

  /** Mnemonics that take one operand token in both passes. */
  predicate TakesOperand(t: string) {
    IsPush(t) || IsSlot(t) || t == "goto" || t == "call"
  }

  /** if and ifn: laid out as five bytes, written as one. */
  predicate IsBranch(t: string) {
    t == "if" || t == "ifn"
  }

  /** Every mnemonic the emission pass recognizes. */
  predicate IsMnemonic(t: string) {
    TakesOperand(t) || IsBranch(t) || SimpleOpcode(t).Some?
  }

  // ---------------------------------------------------------------- layout

  /** The width the layout pass counts for one instruction token and the
      position after the operand token it consumes. */
  datatype Step = Step(width: nat, next: nat)

  /** One iteration of passFunction's loop on a token that is neither the
      '.' sentinel nor a label: one byte for the opcode, four more for the
      listed mnemonics and four more again for the 8-byte pushes. Every
      listed mnemonic but if and ifn takes its operand token. */
  function LayoutStep(toks: seq<string>, pos: nat): (r: Result<Step>)
    requires pos < |toks|
    ensures r.Ok? ==> pos < r.value.next <= |toks| && r.value.width in {1, 5, 9}
    ensures r.Err? ==> r.error == UnexpectedEof
  {
    var t := toks[pos];
    if IsBranch(t) then Ok(Step(5, pos + 1))
    else if TakesOperand(t) then
      if pos + 1 >= |toks| then Err(UnexpectedEof)
      else Ok(Step(if t == "pushi8" || t == "pushf8" then 9 else 5, pos + 2))
    else Ok(Step(1, pos + 1))
  }

  /** What the layout pass records: the label map, the size (the pc reached
      at the sentinel) and the position after the sentinel. */
  datatype Layout = Layout(labels: map<string, nat>, size: nat, next: nat)

  predicate LabelsWithin(labels: map<string, nat>, bound: nat) {
    forall l :: l in labels ==> labels[l] <= bound
  }

  /** passFunction's loop from position pos with the pc and labels so far. A
      label token binds its name to the current pc, replacing any earlier
      binding, and does not advance the pc. */
  function LayoutFrom(toks: seq<string>, pos: nat, pc: nat, labels: map<string, nat>): (r: Result<Layout>)
    requires pos <= |toks|
    ensures r.Ok? ==> pos < r.value.next <= |toks| && toks[r.value.next - 1] == "."
    ensures r.Ok? ==> pc <= r.value.size
    ensures r.Ok? ==> labels.Keys <= r.value.labels.Keys
    ensures r.Ok? && LabelsWithin(labels, pc) ==> LabelsWithin(r.value.labels, r.value.size)
    ensures r.Err? ==> r.error == UnexpectedEof
    decreases |toks| - pos
  {
    if pos == |toks| then Err(UnexpectedEof)
    else
      var t := toks[pos];
      if t == "." then Ok(Layout(labels, pc, pos + 1))
      else if IsLabel(t) then LayoutFrom(toks, pos + 1, pc, labels[LabelName(t) := pc])
      else
        var step :- LayoutStep(toks, pos);
        LayoutFrom(toks, step.next, pc + step.width, labels)
  }

  /** passFunction: the walk starts at pc 0 with no labels. Only a missing
      sentinel makes it fail: it validates no operand. The label map it
      records holds exactly the labels the body defines, each bound to the pc
      the walk had reached at the label's last definition. */
  function PassFunction(toks: seq<string>, pos: nat): (r: Result<Layout>)
    requires pos <= |toks|
    ensures r.Ok? ==> pos < r.value.next <= |toks| && toks[r.value.next - 1] == "."
    ensures r.Ok? ==> LabelsWithin(r.value.labels, r.value.size)
    ensures r.Ok? ==> forall l :: l in r.value.labels <==> LastLabel(toks, pos, l).Some?
    ensures r.Ok? ==> forall l :: LastLabel(toks, pos, l).Some? ==>
      r.value.labels[l] == PcAt(toks, pos, 0, LastLabel(toks, pos, l).value)
    ensures r.Err? ==> r.error == UnexpectedEof
  {
    var r := LayoutFrom(toks, pos, 0, map[]);
    if r.Ok? then LayoutBindsAll(toks, pos, r.value); r else r
  }

  /** The bytes the layout pass counts from pos up to the sentinel, one
      LayoutStep at a time. */
  function WalkWidth(toks: seq<string>, pos: nat): nat
    requires pos <= |toks|
    decreases |toks| - pos
  {
    if pos == |toks| || toks[pos] == "." then 0
    else if IsLabel(toks[pos]) then WalkWidth(toks, pos + 1)
    else match LayoutStep(toks, pos)
      case Ok(step) => step.width + WalkWidth(toks, step.next)
      case Err(_) => 0
  }

  /** The position of the last "l:" the layout walk meets from pos up to
      the sentinel, if it meets one. */
  function LastLabel(toks: seq<string>, pos: nat, l: string): (r: Option<nat>)
    requires pos <= |toks|
    ensures r.Some? ==> pos <= r.value < |toks| && IsLabel(toks[r.value]) && LabelName(toks[r.value]) == l
    decreases |toks| - pos
  {
    if pos == |toks| || toks[pos] == "." then None
    else if IsLabel(toks[pos]) then
      match LastLabel(toks, pos + 1, l)
      case Some(q) => Some(q)
      case None => if LabelName(toks[pos]) == l then Some(pos) else None
    else match LayoutStep(toks, pos)
      case Ok(step) => LastLabel(toks, step.next, l)
      case Err(_) => None
  }

  /** The pc the layout walk from pos has reached at position q: the bytes
      counted from pos up to the sentinel less those counted from q on. */
  function PcAt(toks: seq<string>, pos: nat, pc: nat, q: nat): int
    requires pos <= |toks| && q <= |toks|
  {
    pc + WalkWidth(toks, pos) - WalkWidth(toks, q)
  }

  /** The layout pass records as size its starting pc plus the width of its
      walk. It binds every label to the pc reached at the last of its
      definitions on the walk; a label the walk does not define keeps the
      binding it had before, or stays unbound. */
  lemma {:induction false} LayoutBinds(toks: seq<string>, pos: nat, pc: nat, lbl: map<string, nat>, lay: Layout, l: string)
    requires pos <= |toks| && LayoutFrom(toks, pos, pc, lbl) == Ok(lay)
    ensures lay.size == pc + WalkWidth(toks, pos)
    ensures LastLabel(toks, pos, l).Some? ==>
      l in lay.labels && lay.labels[l] == PcAt(toks, pos, pc, LastLabel(toks, pos, l).value)
    ensures LastLabel(toks, pos, l).None? ==>
      (l in lay.labels <==> l in lbl) && (l in lbl ==> lay.labels[l] == lbl[l])
    decreases |toks| - pos
  {
    if toks[pos] == "." {
    } else if IsLabel(toks[pos]) {
      LayoutBinds(toks, pos + 1, pc, lbl[LabelName(toks[pos]) := pc], lay, l);
    } else {
      var step := LayoutFromInstr(toks, pos, pc, lbl, lay);
      LabelStep(toks, pos, step, l);
      LayoutBinds(toks, step.next, pc + step.width, lbl, lay, l);
    }
  }

  /** Past one instruction the walk's width shrinks by the instruction's
      and the last definition of l stays where it was. */
  lemma LabelStep(toks: seq<string>, pos: nat, step: Step, l: string)
    requires pos < |toks| && toks[pos] != "." && !IsLabel(toks[pos])
    requires LayoutStep(toks, pos) == Ok(step)
    ensures WalkWidth(toks, pos) == step.width + WalkWidth(toks, step.next)
    ensures LastLabel(toks, pos, l) == LastLabel(toks, step.next, l)
  {
  }

  /** LayoutBinds for every label, from pc 0 with no labels. */
  lemma LayoutBindsAll(toks: seq<string>, pos: nat, lay: Layout)
    requires pos <= |toks| && LayoutFrom(toks, pos, 0, map[]) == Ok(lay)
    ensures forall l :: l in lay.labels <==> LastLabel(toks, pos, l).Some?
    ensures forall l :: LastLabel(toks, pos, l).Some? ==> lay.labels[l] == PcAt(toks, pos, 0, LastLabel(toks, pos, l).value)
  {
    forall l
      ensures l in lay.labels <==> LastLabel(toks, pos, l).Some?
      ensures LastLabel(toks, pos, l).Some? ==> lay.labels[l] == PcAt(toks, pos, 0, LastLabel(toks, pos, l).value)
    {
      LayoutBinds(toks, pos, 0, map[], lay, l);
    }
  }

  // -------------------------------------------------------------- emission

  /** A single decoded instruction: its opcode and the unsigned value of its
      operand bytes (zero when it has none). */
  datatype Instr = Instr(op: byte, operand: nat)

  /** How the virtual machine reads the bytes of exactly one instruction. */
  function Decode(bs: seq<byte>): Option<Instr> {
    if |bs| == 0 then None
    else
      var op := bs[0];
      if |bs| == 1 + OperandWidth(op)
         && (OperandWidth(op) > 0 || op == IF_CODE || op == IFN_CODE || SimpleMnemonic(op).Some?)
      then Some(Instr(op, FromLE(bs[1..])))
      else None
  }

  predicate IsPush(t: string) {
    t == "pushi4" || t == "pushi8" || t == "pushf4" || t == "pushf8"
  }

  predicate IsSlot(t: string) {
    t == "load4" || t == "load8" || t == "fetch4" || t == "fetch8"
    || t == "loadwide4" || t == "loadwide8" || t == "fetchwide4" || t == "fetchwide8"
  }

  /** The operand bytes of a push: four for pushi4 and pushf4, eight for
      pushi8 and pushf8. */
  function PushWidth(t: string): nat {
    if t == "pushi4" || t == "pushf4" then 4 else 8
  }

  /** The integer and float pushes of one width share an opcode. */
  function PushCode(t: string): byte {
    if PushWidth(t) == 4 then PUSH4_CODE else PUSH8_CODE
  }

  function SlotCode(t: string): (r: byte)
    ensures OperandWidth(r) == 4
  {
    if t == "load4" then LOAD4_CODE
    else if t == "load8" then LOAD8_CODE
    else if t == "loadwide4" then LOADWIDE4_CODE
    else if t == "loadwide8" then LOADWIDE8_CODE
    else if t == "fetch4" then FETCH4_CODE
    else if t == "fetch8" then FETCH8_CODE
    else if t == "fetchwide4" then FETCHWIDE4_CODE
    else FETCHWIDE8_CODE
  }

  /** The opcode of each mnemonic that takes an operand token. */
  function OperandOpcode(t: string): byte {
    if IsPush(t) then PushCode(t)
    else if IsSlot(t) then SlotCode(t)
    else if t == "goto" then GOTO_CODE
    else CALL_CODE
  }

  /** The opcode each recognized mnemonic is written with. */
  function Opcode(t: string): byte {
    if TakesOperand(t) then OperandOpcode(t)
    else if t == "if" then IF_CODE
    else if t == "ifn" then IFN_CODE
    else if SimpleOpcode(t).Some? then SimpleOpcode(t).value
    else 0
  }

  /** The wide forms address the global region, the others the local one. */
  predicate IsWide(t: string) {
    t == "loadwide4" || t == "loadwide8" || t == "fetchwide4" || t == "fetchwide8"
  }

  /** The load forms reserve a missing name, the fetch forms require it. */
  predicate Creates(t: string) {
    t == "load4" || t == "load8" || t == "loadwide4" || t == "loadwide8"
  }

  /** The bytes a load reserves for a new name. */
  function SlotSize(t: string): u32 {
    if t == "load4" || t == "fetch4" || t == "loadwide4" || t == "fetchwide4" then 4 else 8
  }

  function SlotRegion(s: Session, t: string): Region {
    if IsWide(t) then s.globals else s.locals
  }

  function WithSlotRegion(s: Session, t: string, g: Region): Session {
    if IsWide(t) then s.(globals := g) else s.(locals := g)
  }

  /** A pushi8 operand "@name" stands for the memory offset of a local. */
  predicate IsAddressOf(v: string) {
    |v| > 0 && v[0] == '@'
  }

  /** The value a push operand denotes before it is cut to the push's
      width: atoi's or atof's result, or a local's offset. */
  function PushValue(t: string, v: string, s: Session, fc: FloatConv): int {
    if t == "pushi4" then Atoi(v)
    else if t == "pushf4" then fc.single(v)
    else if t == "pushf8" then fc.double(v)
    else if IsAddressOf(v) && v[1..] in s.locals.mpos then s.locals.mpos[v[1..]]
    else Atoi(v)
  }

  /** The value the operand of the instruction at pos denotes, read from the
      session as it stands after the instruction and from the layout's label
      map: what a correct encoding must carry, as an unsigned field value. */
  function Meaning(toks: seq<string>, pos: nat, s: Session, labels: map<string, nat>, fc: FloatConv): nat
    requires pos < |toks|
  {
    var t := toks[pos];
    if pos + 1 >= |toks| then 0
    else
      var v := toks[pos + 1];
      if IsPush(t) then PushValue(t, v, s, fc) % Pow256(PushWidth(t))
      else if IsSlot(t) && v in SlotRegion(s, t).mpos then SlotRegion(s, t).mpos[v]
      else if t == "goto" && v in labels then labels[v] % U32
      else if t == "call" && v in s.functionIds then s.functionIds[v]
      else 0
  }

  /** The bytes written for one instruction, the session afterwards and the
      position after the tokens it consumed. */
  datatype Emitted = Emitted(bytes: seq<byte>, session: Session, next: nat)

  /** An opcode followed by its operand in n little-endian bytes; it
      decodes to the opcode and the operand modulo the field's width. */
  function Field(op: byte, v: int, n: nat): (r: seq<byte>)
    requires OperandWidth(op) == n > 0
    ensures |r| == 1 + n && Decode(r) == Some(Instr(op, v % Pow256(n)))
  {
    FromLEOfLE(v, n);
    assert ([op] + LE(v, n))[1..] == LE(v, n);
    [op] + LE(v, n)
  }

  /** pushi4, pushi8, pushf4 and pushf8: the opcode of the width, then the
      value in that many bytes. An "@name" operand of pushi8 is the offset of
      an existing local; any other operand goes through atoi or atof, and no
      operand is rejected. */
  function EmitPush(s: Session, t: string, v: string, fc: FloatConv): (r: Result<seq<byte>>)
    requires IsPush(t)
    ensures r.Ok? <==> !(t == "pushi8" && IsAddressOf(v) && v[1..] !in s.locals.mpos)
    ensures r.Err? ==> r.error == NotFound(v[1..])
    ensures r.Ok? ==> |r.value| == 1 + PushWidth(t)
    ensures r.Ok? ==> Decode(r.value) == Some(Instr(PushCode(t), PushValue(t, v, s, fc) % Pow256(PushWidth(t))))
  {
    if t == "pushi8" && IsAddressOf(v) then
      var found :- MPosFor(s.locals, v[1..], false, 0);
      FieldWidths();
      Ok(Field(PUSH8_CODE, found.mpos, 8))
    else Ok(Field(PushCode(t), PushValue(t, v, s, fc), PushWidth(t)))
  }

  /** load4/8 and loadwide4/8 reserve a missing name 4 or 8 bytes of the
      local or global region; fetch4/8 and fetchwide4/8 abort on it. The
      name's offset follows the opcode in 4 bytes. */
  function EmitSlot(s: Session, t: string, v: string): (r: Result<Emitted>)
    requires IsSlot(t)
    ensures v in SlotRegion(s, t).mpos ==> r.Ok? && r.value.session == s
    ensures v !in SlotRegion(s, t).mpos && !Creates(t) ==> r == Err(NotFound(v))
    ensures v !in SlotRegion(s, t).mpos && Creates(t) ==>
      (r.Ok? <==> SlotRegion(s, t).counter + SlotSize(t) < U32)
    ensures r.Ok? && v !in SlotRegion(s, t).mpos ==>
      SlotRegion(r.value.session, t).reserved == SlotRegion(s, t).reserved + [Reservation(v, SlotSize(t))]
    ensures r.Ok? ==> |r.value.bytes| == 5 && v in SlotRegion(r.value.session, t).mpos
    ensures r.Ok? ==> Decode(r.value.bytes) == Some(Instr(SlotCode(t), SlotRegion(r.value.session, t).mpos[v]))
    ensures r.Ok? ==> r.value.session == WithSlotRegion(s, t, SlotRegion(r.value.session, t))
    ensures r.Ok? && RegionValid(SlotRegion(s, t)) ==> RegionValid(SlotRegion(r.value.session, t))
  {
    var found :- MPosFor(SlotRegion(s, t), v, Creates(t), SlotSize(t));
    var s' := WithSlotRegion(s, t, found.region);
    assert SlotRegion(s', t) == found.region;
    OffsetField(found.mpos);
    Ok(Emitted(Field(SlotCode(t), found.mpos, 4), s', 0))
  }

  /** A 32-bit offset fills a 4-byte field unchanged. */
  lemma OffsetField(x: u32)
    ensures x % Pow256(4) == x
  {
    FieldWidths();
  }

  /** goto: the opcode, then the 4-byte pc the layout pass bound to the
      label. */
  function EmitGoto(labels: map<string, nat>, v: string): (r: Result<seq<byte>>)
    ensures r.Ok? <==> v in labels
    ensures r.Err? ==> r.error == LabelNotFound(v)
    ensures r.Ok? ==> |r.value| == 5 && Decode(r.value) == Some(Instr(GOTO_CODE, labels[v] % U32))
  {
    var pc :- LabelPc(labels, v);
    FieldWidths();
    Ok(Field(GOTO_CODE, pc, 4))
  }

  /** call: the opcode, then the callee's 4-byte ID. The callee must be a
      declared function; natives have no function ID and cannot be called
      this way. */
  function EmitCall(s: Session, v: string): (r: Result<seq<byte>>)
    ensures r.Ok? <==> v in s.functionIds
    ensures r.Err? ==> r.error == NotFound(v)
    ensures r.Ok? ==> |r.value| == 5 && Decode(r.value) == Some(Instr(CALL_CODE, s.functionIds[v]))
  {
    var callee :- FunctionIdFor(s, v, false);
    FieldWidths();
    Ok(Field(CALL_CODE, callee.id, 4))
  }

  /** An instruction with an operand token: the encoding for its mnemonic,
      as wide as the layout pass counted it. */
  function EmitOperand(s: Session, labels: map<string, nat>, toks: seq<string>, pos: nat, fc: FloatConv): (r: Result<Emitted>)
    requires pos + 1 < |toks| && TakesOperand(toks[pos])
    ensures r.Ok? ==> r.value.next == pos + 2
    ensures r.Ok? ==> |r.value.bytes| == LayoutStep(toks, pos).value.width
    ensures r.Ok? ==> Decode(r.value.bytes) == Some(Instr(OperandOpcode(toks[pos]), Meaning(toks, pos, r.value.session, labels, fc)))
    ensures r.Ok? ==>
      && r.value.session.functionIds == s.functionIds
      && r.value.session.functionCounter == s.functionCounter
      && r.value.session.functions == s.functions
      && r.value.session.natives == s.natives
      && r.value.session.main == s.main
    ensures r.Ok? && !IsSlot(toks[pos]) ==> r.value.session == s
    ensures r.Ok? && IsSlot(toks[pos]) ==>
      EmitSlot(s, toks[pos], toks[pos + 1]).Ok? && r.value.session == EmitSlot(s, toks[pos], toks[pos + 1]).value.session
  {
    var t, v := toks[pos], toks[pos + 1];
    if IsPush(t) then
      var bytes :- EmitPush(s, t, v, fc);
      Ok(Emitted(bytes, s, pos + 2))
    else if IsSlot(t) then
      var e :- EmitSlot(s, t, v);
      Ok(Emitted(e.bytes, e.session, pos + 2))
    else if t == "goto" then
      var bytes :- EmitGoto(labels, v);
      Ok(Emitted(bytes, s, pos + 2))
    else
      var bytes :- EmitCall(s, v);
      Ok(Emitted(bytes, s, pos + 2))
  }

  /** An instruction without an operand token: its one opcode byte, or an
      abort for a token that is no mnemonic. */
  function EmitSimple(s: Session, t: string, pos: nat): (r: Result<Emitted>)
    requires !TakesOperand(t)
    ensures r.Err? ==> r.error == UnrecognizedMnemonic(t)
    ensures r.Ok? ==> |r.value.bytes| == 1 && r.value.session == s && r.value.next == pos + 1
    ensures r.Ok? ==> Decode(r.value.bytes) == Some(Instr(r.value.bytes[0], 0))
    ensures r.Ok? && !IsBranch(t) ==> SimpleMnemonic(r.value.bytes[0]) == Some(t)
  {
    if t == "if" then
      assert [IF_CODE][1..] == [];
      Ok(Emitted([IF_CODE], s, pos + 1))
    else if t == "ifn" then
      assert [IFN_CODE][1..] == [];
      Ok(Emitted([IFN_CODE], s, pos + 1))
    else
      match SimpleOpcode(t)
      case Some(op) =>
        assert [op][1..] == [];
        Ok(Emitted([op], s, pos + 1))
      case None => Err(UnrecognizedMnemonic(t))
  }

  /** One iteration of writeFunction's loop on a token that is neither the
      sentinel nor a label. */
  function EmitStep(s: Session, labels: map<string, nat>, toks: seq<string>, pos: nat, fc: FloatConv): (r: Result<Emitted>)
    requires pos < |toks|
    ensures r.Ok? ==> pos < r.value.next <= |toks|
    // emission never touches the function table, the layout records or the natives
    ensures r.Ok? ==>
      && r.value.session.functionIds == s.functionIds
      && r.value.session.functionCounter == s.functionCounter
      && r.value.session.functions == s.functions
      && r.value.session.natives == s.natives
      && r.value.session.main == s.main
  {
    var t := toks[pos];
    if TakesOperand(t) then
      if pos + 1 >= |toks| then Err(UnexpectedEof) else EmitOperand(s, labels, toks, pos, fc)
    else EmitSimple(s, t, pos)
  }

  /** Both passes take the same tokens for every instruction, and write what
      the layout pass counted for every mnemonic but if and ifn, which are
      counted as five bytes and written as one. */
  lemma EmitMatchesLayout(s: Session, labels: map<string, nat>, toks: seq<string>, pos: nat, fc: FloatConv)
    requires pos < |toks| && EmitStep(s, labels, toks, pos, fc).Ok?
    ensures LayoutStep(toks, pos).Ok?
    ensures EmitStep(s, labels, toks, pos, fc).value.next == LayoutStep(toks, pos).value.next
    ensures !IsBranch(toks[pos]) ==> |EmitStep(s, labels, toks, pos, fc).value.bytes| == LayoutStep(toks, pos).value.width
    ensures IsBranch(toks[pos]) ==> |EmitStep(s, labels, toks, pos, fc).value.bytes| == 1 && LayoutStep(toks, pos).value.width == 5
  {
    var t := toks[pos];
    if TakesOperand(t) {
      assert pos + 1 < |toks|;
      assert !IsBranch(t);
      assert EmitStep(s, labels, toks, pos, fc) == EmitOperand(s, labels, toks, pos, fc);
    } else {
      assert EmitStep(s, labels, toks, pos, fc) == EmitSimple(s, t, pos);
      assert LayoutStep(toks, pos) == Ok(Step(if IsBranch(t) then 5 else 1, pos + 1));
    }
  }

  /** Emission reserves names only through MPosFor, so both regions keep
      their shape. */
  lemma EmitStepKeepsRegions(s: Session, labels: map<string, nat>, toks: seq<string>, pos: nat, fc: FloatConv)
    requires pos < |toks| && EmitStep(s, labels, toks, pos, fc).Ok?
    requires RegionValid(s.globals) && RegionValid(s.locals)
    ensures RegionValid(EmitStep(s, labels, toks, pos, fc).value.session.globals)
    ensures RegionValid(EmitStep(s, labels, toks, pos, fc).value.session.locals)
  {
    var t := toks[pos];
    if TakesOperand(t) {
      assert EmitStep(s, labels, toks, pos, fc) == EmitOperand(s, labels, toks, pos, fc);
      if IsSlot(t) {
        EmitSlotKeepsRegions(s, t, toks[pos + 1]);
      }
    } else {
      assert EmitStep(s, labels, toks, pos, fc) == EmitSimple(s, t, pos);
    }
  }

  /** A load or fetch changes at most the region it addresses, and keeps
      that region's shape. */
  lemma EmitSlotKeepsRegions(s: Session, t: string, v: string)
    requires IsSlot(t) && EmitSlot(s, t, v).Ok?
    requires RegionValid(s.globals) && RegionValid(s.locals)
    ensures RegionValid(EmitSlot(s, t, v).value.session.globals)
    ensures RegionValid(EmitSlot(s, t, v).value.session.locals)
  {
    if IsWide(t) {
      assert EmitSlot(s, t, v).value.session.locals == s.locals;
    } else {
      assert EmitSlot(s, t, v).value.session.globals == s.globals;
    }
  }

  /** What is emitted for one instruction decodes back to the mnemonic's
      opcode with the operand its tokens denote; a one-byte opcode other
      than if and ifn names the mnemonic back. */
  lemma EmitDecodes(s: Session, labels: map<string, nat>, toks: seq<string>, pos: nat, fc: FloatConv)
    requires pos < |toks| && EmitStep(s, labels, toks, pos, fc).Ok?
    ensures Decode(EmitStep(s, labels, toks, pos, fc).value.bytes)
         == Some(Instr(Opcode(toks[pos]), Meaning(toks, pos, EmitStep(s, labels, toks, pos, fc).value.session, labels, fc)))
    ensures !TakesOperand(toks[pos]) && !IsBranch(toks[pos]) ==>
      SimpleMnemonic(Opcode(toks[pos])) == Some(toks[pos])
  {
    var t := toks[pos];
    if !TakesOperand(t) {
      var e := EmitSimple(s, t, pos).value;
      assert !IsPush(t) && !IsSlot(t) && t != "goto" && t != "call";
      assert Meaning(toks, pos, e.session, labels, fc) == 0;
      assert e.bytes[0] == Opcode(t);
    }
  }

  /** The emission pass accepts exactly the recognized mnemonics: any other
      token aborts it, although the layout pass counted it as one byte. */
  lemma EmitRejectsUnknown(s: Session, labels: map<string, nat>, toks: seq<string>, pos: nat, fc: FloatConv)
    requires pos < |toks|
    ensures !IsMnemonic(toks[pos]) ==> EmitStep(s, labels, toks, pos, fc) == Err(UnrecognizedMnemonic(toks[pos]))
    ensures !IsMnemonic(toks[pos]) ==> LayoutStep(toks, pos) == Ok(Step(1, pos + 1))
    ensures IsMnemonic(toks[pos]) && !TakesOperand(toks[pos]) ==> EmitStep(s, labels, toks, pos, fc).Ok?
  {
  }

  /** writeFunction's loop from position pos: labels are skipped, the
      sentinel ends the body. The session is threaded through, so a local
      reserved here is still reserved in the bodies written after. */
  function EmitFrom(s: Session, labels: map<string, nat>, toks: seq<string>, pos: nat, fc: FloatConv): (r: Result<Emitted>)
    requires pos <= |toks|
    ensures r.Ok? ==> pos < r.value.next <= |toks|
    ensures r.Ok? ==>
      && r.value.session.functionIds == s.functionIds
      && r.value.session.functionCounter == s.functionCounter
      && r.value.session.functions == s.functions
      && r.value.session.natives == s.natives
      && r.value.session.main == s.main
    decreases |toks| - pos
  {
    if pos == |toks| then Err(UnexpectedEof)
    else
      var t := toks[pos];
      if t == "." then Ok(Emitted([], s, pos + 1))
      else if IsLabel(t) then EmitFrom(s, labels, toks, pos + 1, fc)
      else
        var e :- EmitStep(s, labels, toks, pos, fc);
        var rest :- EmitFrom(e.session, labels, toks, e.next, fc);
        Ok(Emitted(e.bytes + rest.bytes, rest.session, rest.next))
  }

  /** Emission of a body ends right after its '.' sentinel. */
  lemma {:induction false} EmitFromStops(s: Session, labels: map<string, nat>, toks: seq<string>, pos: nat, fc: FloatConv, em: Emitted)
    requires pos <= |toks| && EmitFrom(s, labels, toks, pos, fc) == Ok(em)
    ensures em.next - 1 < |toks| && toks[em.next - 1] == "."
    decreases |toks| - pos
  {
    if toks[pos] == "." {
    } else if IsLabel(toks[pos]) {
      EmitFromStops(s, labels, toks, pos + 1, fc, em);
    } else {
      var e, rest := EmitFromSplit(s, labels, toks, pos, fc, em);
      EmitFromStops(e.session, labels, toks, e.next, fc, rest);
    }
  }

  /** An instruction followed by the rest of the body. */
  lemma EmitFromSplit(s: Session, labels: map<string, nat>, toks: seq<string>, pos: nat, fc: FloatConv, em: Emitted)
      returns (e: Emitted, rest: Emitted)
    requires pos < |toks| && toks[pos] != "." && !IsLabel(toks[pos])
    requires EmitFrom(s, labels, toks, pos, fc) == Ok(em)
    ensures EmitStep(s, labels, toks, pos, fc) == Ok(e) && pos < e.next <= |toks|
    ensures EmitFrom(e.session, labels, toks, e.next, fc) == Ok(rest)
    ensures em.bytes == e.bytes + rest.bytes && em.next == rest.next
  {
    e := EmitStep(s, labels, toks, pos, fc).value;
    rest := EmitFrom(e.session, labels, toks, e.next, fc).value;
  }

  lemma {:induction false} EmitFromKeepsRegions(s: Session, labels: map<string, nat>, toks: seq<string>, pos: nat, fc: FloatConv)
    requires pos <= |toks| && EmitFrom(s, labels, toks, pos, fc).Ok?
    requires RegionValid(s.globals) && RegionValid(s.locals)
    ensures RegionValid(EmitFrom(s, labels, toks, pos, fc).value.session.globals)
    ensures RegionValid(EmitFrom(s, labels, toks, pos, fc).value.session.locals)
    decreases |toks| - pos
  {
    var t := toks[pos];
    if t == "." {
    } else if IsLabel(t) {
      EmitFromKeepsRegions(s, labels, toks, pos + 1, fc);
    } else {
      var e := EmitStep(s, labels, toks, pos, fc).value;
      EmitStepKeepsRegions(s, labels, toks, pos, fc);
      EmitFromKeepsRegions(e.session, labels, toks, e.next, fc);
    }
  }

  // ------------------------------------------------------------ agreement

  /** The number of if and ifn instructions met by a walk from pos to the
      sentinel, operand tokens skipped. */
  function Branches(toks: seq<string>, pos: nat): nat
    requires pos <= |toks|
    decreases |toks| - pos
  {
    if pos == |toks| || toks[pos] == "." then 0
    else if IsBranch(toks[pos]) then 1 + Branches(toks, pos + 1)
    else if TakesOperand(toks[pos]) && pos + 1 < |toks| then Branches(toks, pos + 2)
    else Branches(toks, pos + 1)
  }

  /** Both walks stop after the same sentinel, and the layout pass counts
      four bytes more than are written for every if and ifn on the way. */
  lemma {:induction false} WidthsAgree(s: Session, labels: map<string, nat>, toks: seq<string>,
                                        pos: nat, pc: nat, lbl: map<string, nat>, fc: FloatConv,
                                        lay: Layout, em: Emitted)
    requires pos <= |toks|
    requires LayoutFrom(toks, pos, pc, lbl) == Ok(lay) && EmitFrom(s, labels, toks, pos, fc) == Ok(em)
    ensures |em.bytes| + 4 * Branches(toks, pos) == lay.size - pc && em.next == lay.next
    decreases |toks| - pos, 1
  {
    if toks[pos] == "." {
    } else if IsLabel(toks[pos]) {
      LabelWidthsAgree(s, labels, toks, pos, pc, lbl, fc, lay, em);
    } else {
      InstrWidthsAgree(s, labels, toks, pos, pc, lbl, fc, lay, em);
    }
  }

  /** The label case of WidthsAgree: both walks skip the label token. */
  lemma {:induction false} LabelWidthsAgree(s: Session, labels: map<string, nat>, toks: seq<string>,
                                             pos: nat, pc: nat, lbl: map<string, nat>, fc: FloatConv,
                                             lay: Layout, em: Emitted)
    requires pos < |toks| && IsLabel(toks[pos])
    requires LayoutFrom(toks, pos, pc, lbl) == Ok(lay) && EmitFrom(s, labels, toks, pos, fc) == Ok(em)
    ensures |em.bytes| + 4 * Branches(toks, pos) == lay.size - pc && em.next == lay.next
    decreases |toks| - pos, 0
  {
    LabelIsNoMnemonic(toks[pos]);
    assert Branches(toks, pos) == Branches(toks, pos + 1);
    WidthsAgree(s, labels, toks, pos + 1, pc, lbl[LabelName(toks[pos]) := pc], fc, lay, em);
  }

  /** A label token is neither the sentinel nor a mnemonic. */
  lemma LabelIsNoMnemonic(t: string)
    requires IsLabel(t)
    ensures t != "." && !IsBranch(t) && !TakesOperand(t)
  {
  }

  /** The instruction case of WidthsAgree. */
  lemma {:induction false} InstrWidthsAgree(s: Session, labels: map<string, nat>, toks: seq<string>,
                                             pos: nat, pc: nat, lbl: map<string, nat>, fc: FloatConv,
                                             lay: Layout, em: Emitted)
    requires pos < |toks| && toks[pos] != "." && !IsLabel(toks[pos])
    requires LayoutFrom(toks, pos, pc, lbl) == Ok(lay) && EmitFrom(s, labels, toks, pos, fc) == Ok(em)
    ensures |em.bytes| + 4 * Branches(toks, pos) == lay.size - pc && em.next == lay.next
    decreases |toks| - pos, 0
  {
    var s', step, em' := InstrStep(s, labels, toks, pos, pc, lbl, fc, lay, em);
    BranchesStep(toks, pos, step.next);
    WidthsAgree(s', labels, toks, step.next, pc + step.width, lbl, fc, lay, em');
  }

  /** Both walks take one instruction: they resume at the same position,
      the layout pc moving on by the bytes emitted plus four for if and
      ifn. */
  lemma {:induction false} InstrStep(s: Session, labels: map<string, nat>, toks: seq<string>,
                                      pos: nat, pc: nat, lbl: map<string, nat>, fc: FloatConv,
                                      lay: Layout, em: Emitted)
      returns (s': Session, step: Step, em': Emitted)
    requires pos < |toks| && toks[pos] != "." && !IsLabel(toks[pos])
    requires LayoutFrom(toks, pos, pc, lbl) == Ok(lay) && EmitFrom(s, labels, toks, pos, fc) == Ok(em)
    ensures LayoutStep(toks, pos) == Ok(step) && pos < step.next <= |toks|
    ensures LayoutFrom(toks, step.next, pc + step.width, lbl) == Ok(lay)
    ensures EmitFrom(s', labels, toks, step.next, fc) == Ok(em')
    ensures |em.bytes| + (if IsBranch(toks[pos]) then 4 else 0) == step.width + |em'.bytes|
    ensures em.next == em'.next
  {
    var e, rest := EmitFromInstr(s, labels, toks, pos, fc, em);
    step := LayoutFromInstr(toks, pos, pc, lbl, lay);
    s', em' := e.session, rest;
  }

  /** The branch count moves past one instruction as the layout pass does. */
  lemma {:induction false} BranchesStep(toks: seq<string>, pos: nat, next: nat)
    requires pos < |toks| && toks[pos] != "." && !IsLabel(toks[pos])
    requires LayoutStep(toks, pos).Ok? && LayoutStep(toks, pos).value.next == next
    ensures Branches(toks, pos) == (if IsBranch(toks[pos]) then 1 else 0) + Branches(toks, next)
  {
  }

  /** One instruction step of the emission walk. */
  lemma {:induction false} EmitFromInstr(s: Session, labels: map<string, nat>, toks: seq<string>, pos: nat, fc: FloatConv, em: Emitted)
      returns (e: Emitted, rest: Emitted)
    requires pos < |toks| && toks[pos] != "." && !IsLabel(toks[pos])
    requires EmitFrom(s, labels, toks, pos, fc) == Ok(em)
    ensures LayoutStep(toks, pos).Ok?
    ensures |e.bytes| + (if IsBranch(toks[pos]) then 4 else 0) == LayoutStep(toks, pos).value.width
    ensures e.next == LayoutStep(toks, pos).value.next
    ensures pos < e.next && EmitFrom(e.session, labels, toks, e.next, fc) == Ok(rest)
    ensures em.bytes == e.bytes + rest.bytes && em.next == rest.next
  {
    e := EmitStep(s, labels, toks, pos, fc).value;
    rest := EmitFrom(e.session, labels, toks, e.next, fc).value;
    EmitMatchesLayout(s, labels, toks, pos, fc);
  }

  /** One instruction step of the layout walk. */
  lemma {:induction false} LayoutFromInstr(toks: seq<string>, pos: nat, pc: nat, lbl: map<string, nat>, lay: Layout)
      returns (step: Step)
    requires pos < |toks| && toks[pos] != "." && !IsLabel(toks[pos])
    requires LayoutFrom(toks, pos, pc, lbl) == Ok(lay)
    ensures LayoutStep(toks, pos) == Ok(step)
    ensures LayoutFrom(toks, step.next, pc + step.width, lbl) == Ok(lay)
  {
    step := LayoutStep(toks, pos).value;
  }

  /** A body laid out and emitted from its start: the recorded size is the
      emitted length plus four for every if and ifn. */
  lemma FunctionWidths(s: Session, toks: seq<string>, pos: nat, fc: FloatConv)
    requires pos <= |toks|
    requires PassFunction(toks, pos).Ok?
    requires EmitFrom(s, PassFunction(toks, pos).value.labels, toks, pos, fc).Ok?
    ensures |EmitFrom(s, PassFunction(toks, pos).value.labels, toks, pos, fc).value.bytes| + 4 * Branches(toks, pos)
            == PassFunction(toks, pos).value.size
  {
    var lay := PassFunction(toks, pos).value;
    WidthsAgree(s, lay.labels, toks, pos, 0, map[], fc, lay, EmitFrom(s, lay.labels, toks, pos, fc).value);
  }

  /** A body holding one conditional branch. */
  const IfBody: seq<string> := ["if", "."]

  /** "if" is laid out as five bytes and written as the single opcode. */
  lemma IfOvercounts(s: Session, fc: FloatConv)
    ensures PassFunction(IfBody, 0) == Ok(Layout(map[], 5, 2))
    ensures EmitFrom(s, map[], IfBody, 0, fc) == Ok(Emitted([IF_CODE], s, 2))
  {
    assert LayoutFrom(IfBody, 1, 5, map[]) == Ok(Layout(map[], 5, 2));
    assert EmitStep(s, map[], IfBody, 0, fc) == Ok(Emitted([IF_CODE], s, 1));
    assert EmitFrom(s, map[], IfBody, 1, fc) == Ok(Emitted([], s, 2));
    assert [IF_CODE] + [] == [IF_CODE];
  }
}
