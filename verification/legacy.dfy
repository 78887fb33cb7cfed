/** The legacy single-standard translator that predates a10 and a11. It keeps
    one layout record per function name and uses the a10 session tables, but
    its layout pass counts different widths and consumes different operand
    tokens than its emission pass, its byte writer emits only the first byte
    of every multi-byte field, and its label pass never gives a function an
    ID. */
module Legacy {
  import opened Base
  import opened Literals
  import opened A10Session
  import opened A10Function
  import T = A10Translator

  /** write(ptr, size): whatever size the caller asks for, one byte leaves,
      the first (least significant) byte of the size-byte field the caller
      meant to write. */
  function Write(v: int, size: nat): (r: seq<byte>)
    requires size >= 1
    ensures r == LE(v, size)[..1]
  {
    LE(v, 1)
  }

  /** functions[name]: operator[] of a std::map yields an empty record for a
      name that was never laid out. The model does not store that record. */
  function Record(s: Session, name: string): (d: FunctionData)
    ensures name in s.functions ==> d == s.functions[name]
    ensures name !in s.functions ==> d == FunctionData(0, map[], 0)
  {
    if name in s.functions then s.functions[name] else FunctionData(0, map[], 0)
  }

  // ---------------------------------------------------------------- layout

  /** addPC on a token that is neither the sentinel nor a label: one byte for
      the opcode, one or eight more for a push literal, two more for load,
      fetch and fetchwide, four more for if, ifn, goto and call. Only push
      reads its operand token; every other operand token is met again by the
      loop as if it were an instruction of its own. */
  function AddPc(toks: seq<string>, pos: nat): (r: Result<Step>)
    requires pos < |toks| && !IsLabel(toks[pos])
    ensures toks[pos] != "push" ==> r.Ok? && r.value.next == pos + 1
    ensures toks[pos] == "push" ==> (r.Ok? <==> pos + 1 < |toks| && Classify(toks[pos + 1]).Some?)
    ensures r.Ok? ==> pos < r.value.next <= |toks| && 1 <= r.value.width <= 9
    ensures r.Err? ==> r.error == UnexpectedEof || (pos + 1 < |toks| && r.error == UnknownPushType(toks[pos + 1]))
  {
    var t := toks[pos];
    if t == "push" then
      if pos + 1 >= |toks| then Err(UnexpectedEof)
      else
        match Classify(toks[pos + 1])
        case Some(BoolLit) => Ok(Step(2, pos + 2))
        case Some(_) => Ok(Step(9, pos + 2))
        case None => Err(UnknownPushType(toks[pos + 1]))
    else if t == "load" || t == "fetch" || t == "fetchwide" then Ok(Step(3, pos + 1))
    else if t == "if" || t == "ifn" || t == "goto" || t == "call" then Ok(Step(5, pos + 1))
    else Ok(Step(1, pos + 1))
  }

  /** Against the a10 layout of the same instruction: the legacy width
      differs only for loadwide, which it counts as one byte, and the legacy
      walk resumes at a different token exactly for the mnemonics whose
      operand it leaves unread. */
  lemma LayoutAgainstA10(toks: seq<string>, pos: nat)
    requires pos < |toks| && !IsLabel(toks[pos])
    requires AddPc(toks, pos).Ok? && LayoutStep(toks, pos).Ok?
    ensures AddPc(toks, pos).value.width == LayoutStep(toks, pos).value.width <==> toks[pos] != "loadwide"
    ensures AddPc(toks, pos).value.next == LayoutStep(toks, pos).value.next <==>
      toks[pos] !in {"load", "loadwide", "fetch", "fetchwide", "goto", "call"}
  {
    var t := toks[pos];
    if t == "push" {
      assert AddPc(toks, pos).value.next == pos + 2;
    } else if t == "loadwide" {
      assert AddPc(toks, pos).value.width == 1;
    } else if t in {"load", "fetch", "fetchwide", "goto", "call"} {
      assert AddPc(toks, pos).value.next == pos + 1;
    }
  }

  /** seekFunction's loop from pos with the pc and labels so far. The
      sentinel ends the body; a label binds its name to the pc, replacing an
      earlier binding. */
  function SeekFrom(toks: seq<string>, pos: nat, pc: nat, labels: map<string, nat>): (r: Result<Layout>)
    requires pos <= |toks|
    ensures r.Ok? ==> pos < r.value.next <= |toks| && toks[r.value.next - 1] == "."
    ensures r.Ok? ==> pc <= r.value.size
    ensures r.Ok? ==> labels.Keys <= r.value.labels.Keys
    ensures r.Ok? && LabelsWithin(labels, pc) ==> LabelsWithin(r.value.labels, r.value.size)
    ensures pos == |toks| ==> r == Err(UnexpectedEof)
    ensures r.Err? ==> r.error == UnexpectedEof || r.error.UnknownPushType?
    decreases |toks| - pos
  {
    if pos == |toks| then Err(UnexpectedEof)
    else
      var t := toks[pos];
      if t == "." then Ok(Layout(labels, pc, pos + 1))
      else if IsLabel(t) then SeekFrom(toks, pos + 1, pc, labels[LabelName(t) := pc])
      else
        var step :- AddPc(toks, pos);
        SeekFrom(toks, step.next, pc + step.width, labels)
  }

  /** What seekFunction leaves behind: the session with the function's
      record replaced and the position after the sentinel. */
  datatype Laid = Laid(session: Session, next: nat)

  /** seekFunction: the body starts at pos with pc zero and no labels; the
      record of name gets that start, the labels bound and the final pc as
      its size, and nothing else in the session changes. */
  function SeekFunction(s: Session, name: string, toks: seq<string>, pos: nat): (r: Result<Laid>)
    requires pos <= |toks|
    ensures r.Ok? ==> pos < r.value.next <= |toks| && toks[r.value.next - 1] == "."
    ensures r.Ok? ==> name in r.value.session.functions
    ensures r.Ok? ==> r.value.session == s.(functions := s.functions[name := r.value.session.functions[name]])
    ensures r.Ok? ==> var d := r.value.session.functions[name];
      d.inpos == pos && LabelsWithin(d.labels, d.size)
    // the size is the width of the walk; every label the body defines, and
    // no other, is bound to the pc the walk had reached at its last definition
    ensures r.Ok? ==> var d := r.value.session.functions[name];
      && d.size == SeekWidth(toks, pos)
      && (forall l :: l in d.labels <==> SeekLabel(toks, pos, l).Some?)
      && (forall l :: SeekLabel(toks, pos, l).Some? ==> d.labels[l] == SeekPc(toks, pos, SeekLabel(toks, pos, l).value))
    ensures r.Err? ==> r.error == UnexpectedEof || r.error.UnknownPushType?
  {
    var lay :- SeekFrom(toks, pos, 0, map[]);
    SeekBindsAll(toks, pos, lay);
    Ok(Laid(s.(functions := s.functions[name := FunctionData(pos, lay.labels, lay.size)]), lay.next))
  }

  /** The bytes seekFunction's loop counts from pos up to the sentinel, one
      AddPc at a time. */
  function SeekWidth(toks: seq<string>, pos: nat): nat
    requires pos <= |toks|
    decreases |toks| - pos
  {
    if pos == |toks| || toks[pos] == "." then 0
    else if IsLabel(toks[pos]) then SeekWidth(toks, pos + 1)
    else match AddPc(toks, pos)
      case Ok(step) => step.width + SeekWidth(toks, step.next)
      case Err(_) => 0
  }

  /** The position of the last "l:" seekFunction's loop meets from pos up to
      the sentinel, if it meets one. */
  function SeekLabel(toks: seq<string>, pos: nat, l: string): (r: Option<nat>)
    requires pos <= |toks|
    ensures r.Some? ==> pos <= r.value < |toks| && IsLabel(toks[r.value]) && LabelName(toks[r.value]) == l
    decreases |toks| - pos
  {
    if pos == |toks| || toks[pos] == "." then None
    else if IsLabel(toks[pos]) then
      match SeekLabel(toks, pos + 1, l)
      case Some(q) => Some(q)
      case None => if LabelName(toks[pos]) == l then Some(pos) else None
    else match AddPc(toks, pos)
      case Ok(step) => SeekLabel(toks, step.next, l)
      case Err(_) => None
  }

  /** The pc the loop from pos, starting at pc 0, has reached at position q. */
  function SeekPc(toks: seq<string>, pos: nat, q: nat): int
    requires pos <= |toks| && q <= |toks|
  {
    SeekWidth(toks, pos) - SeekWidth(toks, q)
  }

  /** seekFunction's loop records as size its starting pc plus the width of
      its walk. It binds every label to the pc reached at the last of its
      definitions; a label the walk does not define keeps the binding it had
      before, or stays unbound. */
  lemma {:induction false} SeekBinds(toks: seq<string>, pos: nat, pc: nat, lbl: map<string, nat>, lay: Layout, l: string)
    requires pos <= |toks| && SeekFrom(toks, pos, pc, lbl) == Ok(lay)
    ensures lay.size == pc + SeekWidth(toks, pos)
    ensures SeekLabel(toks, pos, l).Some? ==>
      l in lay.labels && lay.labels[l] == pc + SeekPc(toks, pos, SeekLabel(toks, pos, l).value)
    ensures SeekLabel(toks, pos, l).None? ==>
      (l in lay.labels <==> l in lbl) && (l in lbl ==> lay.labels[l] == lbl[l])
    decreases |toks| - pos
  {
    if toks[pos] == "." {
    } else if IsLabel(toks[pos]) {
      SeekBinds(toks, pos + 1, pc, lbl[LabelName(toks[pos]) := pc], lay, l);
    } else {
      var step := SeekStep(toks, pos, pc, lbl, lay, l);
      SeekBinds(toks, step.next, pc + step.width, lbl, lay, l);
    }
  }

  /** One instruction of seekFunction's loop, for the walk and for label l. */
  lemma SeekStep(toks: seq<string>, pos: nat, pc: nat, lbl: map<string, nat>, lay: Layout, l: string)
      returns (step: Step)
    requires pos < |toks| && toks[pos] != "." && !IsLabel(toks[pos])
    requires SeekFrom(toks, pos, pc, lbl) == Ok(lay)
    ensures AddPc(toks, pos) == Ok(step) && SeekFrom(toks, step.next, pc + step.width, lbl) == Ok(lay)
    ensures SeekWidth(toks, pos) == step.width + SeekWidth(toks, step.next)
    ensures SeekLabel(toks, pos, l) == SeekLabel(toks, step.next, l)
  {
    step := AddPc(toks, pos).value;
  }

  /** SeekBinds for every label, from pc 0 with no labels. */
  lemma SeekBindsAll(toks: seq<string>, pos: nat, lay: Layout)
    requires pos <= |toks| && SeekFrom(toks, pos, 0, map[]) == Ok(lay)
    ensures lay.size == SeekWidth(toks, pos)
    ensures forall l :: l in lay.labels <==> SeekLabel(toks, pos, l).Some?
    ensures forall l :: SeekLabel(toks, pos, l).Some? ==> lay.labels[l] == SeekPc(toks, pos, SeekLabel(toks, pos, l).value)
  {
    SeekBinds(toks, pos, 0, map[], lay, "");
    forall l
      ensures l in lay.labels <==> SeekLabel(toks, pos, l).Some?
      ensures SeekLabel(toks, pos, l).Some? ==> lay.labels[l] == SeekPc(toks, pos, SeekLabel(toks, pos, l).value)
    {
      SeekBinds(toks, pos, 0, map[], lay, l);
    }
  }

  // ------------------------------------------------------------- emission

  /** translate on one token that is not the sentinel. A label writes
      nothing. Every other mnemonic writes its opcode and then, through
      write, only the first byte of each operand field. call looks its callee
      up before it reads the argument count. */
  function Translate(s: Session, name: string, toks: seq<string>, pos: nat, fc: FloatConv): (r: Result<Emitted>)
    requires pos < |toks|
    ensures r.Ok? ==> pos < r.value.next <= |toks|
    ensures IsLabel(toks[pos]) ==> r == Ok(Emitted([], s, pos + 1))
    ensures !IsLabel(toks[pos]) && !IsMnemonic(toks[pos]) ==> r == Err(UnrecognizedMnemonic(toks[pos]))
    ensures !IsLabel(toks[pos]) && toks[pos] == "call" && pos + 1 < |toks| && toks[pos + 1] !in s.functionIds ==>
      r == Err(NotFound(toks[pos + 1]))
    ensures r.Ok? ==>
      && r.value.session.functionIds == s.functionIds
      && r.value.session.functions == s.functions
      && r.value.session.natives == s.natives
    ensures r.Ok? && Valid(s) ==> Valid(r.value.session)
  {
    var t := toks[pos];
    if IsLabel(t) then Ok(Emitted([], s, pos + 1))
    else if t == "push" then
      if pos + 1 >= |toks| then Err(UnexpectedEof)
      else
        var v := toks[pos + 1];
        match Classify(v)
        case Some(BoolLit) => Ok(Emitted([PUSHB_CODE, if v == "true" then 1 else 0], s, pos + 2))
        case Some(IntLit) => Ok(Emitted([PUSHI_CODE] + Write(Atoi(v), 8), s, pos + 2))
        case Some(FloatLit) => Ok(Emitted([PUSHF_CODE] + Write(fc.double(v), 8), s, pos + 2))
        case None => Err(UnknownPushType(v))
    else if IsSlot(t) then
      if pos + 1 >= |toks| then Err(UnexpectedEof)
      else
        var found :- IdFor(s, SlotSpace(t), toks[pos + 1], t == "load" || t == "loadwide");
        Ok(Emitted([SlotCode(t)] + Write(found.id, 2), found.session, pos + 2))
    else if IsBranch(t) then
      if pos + 1 >= |toks| then Err(UnexpectedEof)
      else
        var pc :- LabelPc(Record(s, name).labels, toks[pos + 1]);
        Ok(Emitted([BranchCode(t)] + Write(pc, 4), s, pos + 2))
    else if t == "call" then
      if pos + 1 >= |toks| then Err(UnexpectedEof)
      else
        var callee :- IdFor(s, Functions, toks[pos + 1], false);
        if pos + 2 >= |toks| then Err(UnexpectedEof)
        else Ok(Emitted([CALL_CODE] + Write(callee.id, 2) + Write(Atoi(toks[pos + 2]), 1), s, pos + 3))
    else
      match SimpleOpcode(t)
      case Some(op) => Ok(Emitted([op], s, pos + 1))
      case None => Err(UnrecognizedMnemonic(t))
  }

  /** What the layout pass counted against what the emission pass wrote, per
      mnemonic. A numeric push is counted seven bytes wider than written.
      load, fetch and fetchwide are counted three bytes, loadwide one, the
      branches and call five, while each writes two bytes (call three); all of
      these are counted without their operand tokens, which the emission pass
      reads. */
  lemma LayoutAgainstEmission(s: Session, name: string, toks: seq<string>, pos: nat, fc: FloatConv)
    requires pos < |toks| && !IsLabel(toks[pos]) && Translate(s, name, toks, pos, fc).Ok?
    ensures AddPc(toks, pos).Ok?
    ensures var e, a, t := Translate(s, name, toks, pos, fc).value, AddPc(toks, pos).value, toks[pos];
      && (t == "push" ==>
            && a.next == e.next
            && a.width == |e.bytes| + (if Classify(toks[pos + 1]) == Some(BoolLit) then 0 else 7))
      && (t in {"load", "fetch", "fetchwide"} ==> a.width == 3 && |e.bytes| == 2 && e.next == a.next + 1)
      && (t == "loadwide" ==> a.width == 1 && |e.bytes| == 2 && e.next == a.next + 1)
      && (t in {"if", "ifn", "goto"} ==> a.width == 5 && |e.bytes| == 2 && e.next == a.next + 1)
      && (t == "call" ==> a.width == 5 && |e.bytes| == 3 && e.next == a.next + 2)
      && (t !in OperandMnemonics ==> a.width == |e.bytes| == 1 && e.next == a.next)
      && (t == "push" || t !in OperandMnemonics ==> e.session == s)
  {
    var t := toks[pos];
    if t == "push" {
      assert pos + 1 < |toks|;
    } else if IsSlot(t) || IsBranch(t) {
      assert pos + 1 < |toks|;
    } else if t == "call" {
      assert pos + 2 < |toks|;
    } else {
      assert SimpleOpcode(t).Some?;
    }
  }

  /** l is the a10 emission a with every operand field cut to its first
      byte: the opcode and first operand byte stay, and for call the second
      byte of the callee ID is dropped. */
  predicate Truncated(l: Emitted, a: Emitted, call: bool) {
    && l.session == a.session && l.next == a.next
    && (call ==> |a.bytes| == 4 && l.bytes == a.bytes[..2] + a.bytes[3..])
    && (!call ==> |a.bytes| >= 1 && l.bytes == a.bytes[..if |a.bytes| == 1 then 1 else 2])
  }

  /** Against the a10 encoding of the same instruction, read with the same
      session and the function's own labels: the legacy bytes are the a10
      bytes with every operand field cut to its first byte. if is left aside
      because a10 reads its label one token later. */
  lemma TruncatesA10(s: Session, name: string, toks: seq<string>, pos: nat, fc: FloatConv)
    requires pos < |toks| && !IsLabel(toks[pos]) && toks[pos] != "if"
    requires Translate(s, name, toks, pos, fc).Ok?
    requires EmitStep(s, Record(s, name).labels, toks, pos, fc).Ok?
    ensures Truncated(Translate(s, name, toks, pos, fc).value, EmitStep(s, Record(s, name).labels, toks, pos, fc).value,
                      toks[pos] == "call")
  {
    var t := toks[pos];
    if t == "push" {
      TruncatesPush(s, name, toks, pos, fc);
    } else if IsSlot(t) {
      TruncatesSlot(s, name, toks, pos, fc);
    } else if IsBranch(t) {
      TruncatesBranch(s, name, toks, pos, fc);
    } else if t == "call" {
      TruncatesCall(s, name, toks, pos, fc);
    }
  }

  lemma TruncatesPush(s: Session, name: string, toks: seq<string>, pos: nat, fc: FloatConv)
    requires pos < |toks| && toks[pos] == "push"
    requires Translate(s, name, toks, pos, fc).Ok? && EmitPush(s, toks, pos, fc).Ok?
    ensures Truncated(Translate(s, name, toks, pos, fc).value, EmitPush(s, toks, pos, fc).value, false)
  {
    var v := toks[pos + 1];
    if Classify(v) == Some(IntLit) {
      FirstField(PUSHI_CODE, Atoi(v), 8);
    } else if Classify(v) == Some(FloatLit) {
      FirstField(PUSHF_CODE, fc.double(v), 8);
    }
  }

  lemma TruncatesSlot(s: Session, name: string, toks: seq<string>, pos: nat, fc: FloatConv)
    requires pos < |toks| && IsSlot(toks[pos])
    requires Translate(s, name, toks, pos, fc).Ok? && EmitSlot(s, toks, pos).Ok?
    ensures Truncated(Translate(s, name, toks, pos, fc).value, EmitSlot(s, toks, pos).value, false)
  {
    var t := toks[pos];
    var found := IdFor(s, SlotSpace(t), toks[pos + 1], t == "load" || t == "loadwide").value;
    FirstField(SlotCode(t), found.id, 2);
  }

  lemma TruncatesBranch(s: Session, name: string, toks: seq<string>, pos: nat, fc: FloatConv)
    requires pos < |toks| && IsBranch(toks[pos]) && toks[pos] != "if"
    requires Translate(s, name, toks, pos, fc).Ok? && EmitBranch(s, Record(s, name).labels, toks, pos).Ok?
    ensures Truncated(Translate(s, name, toks, pos, fc).value, EmitBranch(s, Record(s, name).labels, toks, pos).value, false)
  {
    FirstField(BranchCode(toks[pos]), Record(s, name).labels[toks[pos + 1]], 4);
  }

  lemma TruncatesCall(s: Session, name: string, toks: seq<string>, pos: nat, fc: FloatConv)
    requires pos < |toks| && toks[pos] == "call"
    requires Translate(s, name, toks, pos, fc).Ok? && EmitCall(s, toks, pos).Ok?
    ensures Truncated(Translate(s, name, toks, pos, fc).value, EmitCall(s, toks, pos).value, true)
  {
    var id := s.functionIds[toks[pos + 1]];
    var argc := Atoi(toks[pos + 2]);
    FirstField(CALL_CODE, id, 2);
    var a := [CALL_CODE] + LE(id, 2) + LE(argc, 1);
    assert a[..2] == [CALL_CODE] + LE(id, 2)[..1];
    assert a[3..] == LE(argc, 1);
  }

  /** An opcode followed by the first byte of an n-byte field is the first
      two bytes of the opcode followed by the whole field. */
  lemma FirstField(op: byte, v: int, n: nat)
    requires n >= 1
    ensures [op] + Write(v, n) == ([op] + LE(v, n))[..2]
  {
    assert ([op] + LE(v, n))[..2] == [op] + LE(v, n)[..1];
  }

  /** translateFunction's loop from pos: the sentinel ends the body, every
      other token goes through translate. */
  function TranslateFrom(s: Session, name: string, toks: seq<string>, pos: nat, fc: FloatConv): (r: Result<Emitted>)
    ensures r.Ok? ==> pos < r.value.next <= |toks| && toks[r.value.next - 1] == "."
    ensures r.Ok? ==>
      && r.value.session.functionIds == s.functionIds
      && r.value.session.functions == s.functions
      && r.value.session.natives == s.natives
    ensures r.Ok? && Valid(s) ==> Valid(r.value.session)
    decreases |toks| - pos
  {
    if pos >= |toks| then Err(UnexpectedEof)
    else if toks[pos] == "." then Ok(Emitted([], s, pos + 1))
    else
      var e :- Translate(s, name, toks, pos, fc);
      var rest :- TranslateFrom(e.session, name, toks, e.next, fc);
      Ok(Emitted(e.bytes + rest.bytes, rest.session, rest.next))
  }

  /** translateFunction: resume at the start the layout pass recorded for
      name (position zero for a name never laid out). */
  function TranslateFunction(s: Session, name: string, toks: seq<string>, fc: FloatConv): (r: Result<Emitted>)
    ensures r.Ok? ==> Record(s, name).inpos < r.value.next <= |toks|
    ensures r.Ok? ==> r.value.session.functionIds == s.functionIds && r.value.session.functions == s.functions
  {
    TranslateFrom(s, name, toks, Record(s, name).inpos, fc)
  }

  // ------------------------------------------------------- straight bodies

  /** Along the walk the two passes would share, no instruction carries an
      operand other than push: the only kind of body whose tokens both passes
      consume alike. */
  predicate Straight(toks: seq<string>, pos: nat)
    decreases |toks| - pos
  {
    if pos >= |toks| || toks[pos] == "." then true
    else if IsLabel(toks[pos]) then Straight(toks, pos + 1)
    else if toks[pos] == "push" then pos + 1 < |toks| ==> Straight(toks, pos + 2)
    else toks[pos] !in OperandMnemonics && Straight(toks, pos + 1)
  }

  /** The integer and float pushes along the same walk. */
  function WidePushes(toks: seq<string>, pos: nat): nat
    decreases |toks| - pos
  {
    if pos >= |toks| || toks[pos] == "." then 0
    else if IsLabel(toks[pos]) then WidePushes(toks, pos + 1)
    else if toks[pos] == "push" then
      if pos + 1 < |toks| then
        (if Classify(toks[pos + 1]) == Some(BoolLit) then 0 else 1) + WidePushes(toks, pos + 2)
      else 0
    else WidePushes(toks, pos + 1)
  }

  /** One instruction of a straight body: both passes resume at the same
      token, the session is untouched, and the layout counts seven bytes more
      than is written exactly for an integer or float push. */
  lemma StraightStep(s: Session, name: string, toks: seq<string>, pos: nat, fc: FloatConv)
    requires pos < |toks| && toks[pos] != "." && !IsLabel(toks[pos]) && Straight(toks, pos)
    requires Translate(s, name, toks, pos, fc).Ok?
    ensures AddPc(toks, pos).Ok?
    ensures var e, a := Translate(s, name, toks, pos, fc).value, AddPc(toks, pos).value;
      && e.session == s && e.next == a.next && Straight(toks, a.next)
      && a.width + 7 * WidePushes(toks, a.next) == |e.bytes| + 7 * WidePushes(toks, pos)
  {
    LayoutAgainstEmission(s, name, toks, pos, fc);
  }

  /** The emission loop across one instruction of a straight body. */
  lemma {:induction false} TranslateAcross(s: Session, name: string, toks: seq<string>, pos: nat,
                                           fc: FloatConv, em: Emitted)
    returns (step: Step, rest: Emitted)
    requires pos < |toks| && toks[pos] != "." && !IsLabel(toks[pos]) && Straight(toks, pos)
    requires TranslateFrom(s, name, toks, pos, fc) == Ok(em)
    ensures AddPc(toks, pos) == Ok(step) && Straight(toks, step.next)
    ensures TranslateFrom(s, name, toks, step.next, fc) == Ok(rest)
    ensures em.next == rest.next
    ensures step.width + 7 * WidePushes(toks, step.next) + |rest.bytes| == |em.bytes| + 7 * WidePushes(toks, pos)
  {
    StraightStep(s, name, toks, pos, fc);
    step := AddPc(toks, pos).value;
    var e := Translate(s, name, toks, pos, fc).value;
    rest := TranslateFrom(e.session, name, toks, e.next, fc).value;
    assert em.bytes == e.bytes + rest.bytes;
  }

  /** The layout loop across one instruction. */
  lemma {:induction false} SeekAcross(toks: seq<string>, pos: nat, pc: nat, labels: map<string, nat>, lay: Layout)
    requires pos < |toks| && toks[pos] != "." && !IsLabel(toks[pos])
    requires SeekFrom(toks, pos, pc, labels) == Ok(lay)
    ensures AddPc(toks, pos).Ok?
    ensures SeekFrom(toks, AddPc(toks, pos).value.next, pc + AddPc(toks, pos).value.width, labels) == Ok(lay)
  {
  }

  /** Both loops across a label: nothing is counted or written, and the
      label is bound to the pc. */
  lemma {:induction false} LabelAcross(s: Session, name: string, toks: seq<string>, pos: nat,
                                       pc: nat, labels: map<string, nat>, fc: FloatConv,
                                       lay: Layout, em: Emitted)
    requires pos < |toks| && toks[pos] != "." && IsLabel(toks[pos]) && Straight(toks, pos)
    requires SeekFrom(toks, pos, pc, labels) == Ok(lay) && TranslateFrom(s, name, toks, pos, fc) == Ok(em)
    ensures SeekFrom(toks, pos + 1, pc, labels[LabelName(toks[pos]) := pc]) == Ok(lay)
    ensures TranslateFrom(s, name, toks, pos + 1, fc) == Ok(em)
    ensures Straight(toks, pos + 1) && WidePushes(toks, pos) == WidePushes(toks, pos + 1)
  {
    assert Translate(s, name, toks, pos, fc) == Ok(Emitted([], s, pos + 1));
    var rest := TranslateFrom(s, name, toks, pos + 1, fc).value;
    assert [] + rest.bytes == rest.bytes;
  }

  /** On a straight body both passes stop after the same sentinel, and the
      size the layout pass records exceeds the bytes written by seven for
      every integer or float push. */
  lemma {:induction false} StraightWidths(s: Session, name: string, toks: seq<string>, pos: nat,
                                          pc: nat, labels: map<string, nat>, fc: FloatConv,
                                          lay: Layout, em: Emitted)
    requires pos <= |toks| && Straight(toks, pos)
    requires SeekFrom(toks, pos, pc, labels) == Ok(lay) && TranslateFrom(s, name, toks, pos, fc) == Ok(em)
    ensures lay.next == em.next
    ensures lay.size == pc + |em.bytes| + 7 * WidePushes(toks, pos)
    decreases |toks| - pos, 1
  {
    if toks[pos] == "." {
    } else if IsLabel(toks[pos]) {
      StraightLabel(s, name, toks, pos, pc, labels, fc, lay, em);
    } else {
      StraightInstr(s, name, toks, pos, pc, labels, fc, lay, em);
    }
  }

  lemma {:induction false} StraightLabel(s: Session, name: string, toks: seq<string>, pos: nat,
                                         pc: nat, labels: map<string, nat>, fc: FloatConv,
                                         lay: Layout, em: Emitted)
    requires pos < |toks| && toks[pos] != "." && IsLabel(toks[pos]) && Straight(toks, pos)
    requires SeekFrom(toks, pos, pc, labels) == Ok(lay) && TranslateFrom(s, name, toks, pos, fc) == Ok(em)
    ensures lay.next == em.next
    ensures lay.size == pc + |em.bytes| + 7 * WidePushes(toks, pos)
    decreases |toks| - pos, 0
  {
    LabelAcross(s, name, toks, pos, pc, labels, fc, lay, em);
    StraightWidths(s, name, toks, pos + 1, pc, labels[LabelName(toks[pos]) := pc], fc, lay, em);
  }

  lemma {:induction false} StraightInstr(s: Session, name: string, toks: seq<string>, pos: nat,
                                         pc: nat, labels: map<string, nat>, fc: FloatConv,
                                         lay: Layout, em: Emitted)
    requires pos < |toks| && toks[pos] != "." && !IsLabel(toks[pos]) && Straight(toks, pos)
    requires SeekFrom(toks, pos, pc, labels) == Ok(lay) && TranslateFrom(s, name, toks, pos, fc) == Ok(em)
    ensures lay.next == em.next
    ensures lay.size == pc + |em.bytes| + 7 * WidePushes(toks, pos)
    decreases |toks| - pos, 0
  {
    var step, rest := TranslateAcross(s, name, toks, pos, fc, em);
    SeekAcross(toks, pos, pc, labels, lay);
    StraightWidths(s, name, toks, step.next, pc + step.width, labels, fc, lay, rest);
  }

  /** A body with a jump to a label that follows its operand token: the
      layout pass counts the goto as five bytes and its operand token as a
      one-byte instruction, so the label lands at pc 6, while the emission
      pass writes two bytes in all and the jump target lies past the body's
      end. */
  const JumpBody: seq<string> := ["goto", "l", "l:", "."]

  /** Laid out, the body binds l to pc 6 and is six bytes long. */
  lemma JumpLayout()
    ensures SeekFrom(JumpBody, 0, 0, map[]) == Ok(Layout(map["l" := 6], 6, 4))
  {
    assert LabelName("l:") == "l";
    assert !IsLabel("goto") && !IsLabel("l") && IsLabel("l:");
    assert AddPc(JumpBody, 0) == Ok(Step(5, 1));
    assert AddPc(JumpBody, 1) == Ok(Step(1, 2));
  }

  /** Translated with that label map, it is two bytes long and jumps to pc
      6. */
  lemma JumpEmits(s: Session, fc: FloatConv)
    requires Record(s, "main").labels == map["l" := 6]
    ensures TranslateFrom(s, "main", JumpBody, 0, fc) == Ok(Emitted([GOTO_CODE, 6], s, 4))
  {
    assert !IsLabel("goto") && !IsSlot("goto") && IsBranch("goto") && IsLabel("l:");
    assert JumpBody[0] == "goto" && JumpBody[1] == "l" && BranchCode("goto") == GOTO_CODE;
    assert LabelPc(Record(s, "main").labels, "l") == Ok(6);
    assert Write(6, 4) == [6];
    assert [GOTO_CODE] + Write(6, 4) == [GOTO_CODE, 6];
    assert Translate(s, "main", JumpBody, 0, fc) == Ok(Emitted([GOTO_CODE, 6], s, 2));
    assert Translate(s, "main", JumpBody, 2, fc) == Ok(Emitted([], s, 3));
    assert JumpBody[2] == "l:" && JumpBody[3] == "." && "l:" != ".";
    assert TranslateFrom(s, "main", JumpBody, 3, fc) == Ok(Emitted([], s, 4));
    var empty: seq<byte> := [];
    assert empty + empty == empty;
    assert TranslateFrom(s, "main", JumpBody, 2, fc) == Ok(Emitted([], s, 4));
    assert [GOTO_CODE, 6] + [] == [GOTO_CODE, 6];
  }

  // ------------------------------------------------------------ label pass

  /** function(): at most four characters with at most one 'n' and one 'v'
      among the flags, then the name. A native is only announced; any other
      function has its locals reset and is laid out. No ID is ever issued
      for the name. */
  function FunctionBlock(s: Session, block: string, toks: seq<string>, pos: nat): (r: Result<T.Declared>)
    requires |block| >= 2 && pos <= |toks|
    ensures T.ParseFlags(block).Err? ==> r == Err(InvalidFunctionDef(block))
    ensures T.ParseFlags(block).Ok? && pos == |toks| ==> r == Err(UnexpectedEof)
    ensures r.Ok? ==> pos < r.value.next <= |toks|
    ensures r.Ok? && T.ParseFlags(block).value.native ==> r.value == T.Declared(s, pos + 1)
    ensures r.Ok? && !T.ParseFlags(block).value.native ==>
      && toks[pos] in r.value.session.functions
      && r.value.session.functions[toks[pos]].inpos == pos + 1
      && r.value.session.localIds == map[] && r.value.session.localCounter == 0
    ensures r.Ok? ==> s.functions.Keys <= r.value.session.functions.Keys
  {
    var flags :- T.ParseFlags(block);
    if pos >= |toks| then Err(UnexpectedEof)
    else if flags.native then Ok(T.Declared(s, pos + 1))
    else
      var laid :- SeekFunction(ClearLocals(s), toks[pos], toks, pos + 1);
      Ok(T.Declared(laid.session, laid.next))
  }

  /** run: every block token has at least two characters with ':' second;
      'f' blocks declare functions, 'w' blocks name a global and do nothing
      else, other letters are skipped. The stream may end between blocks. */
  function Run(s: Session, toks: seq<string>, pos: nat): (r: Result<Session>)
    requires pos <= |toks|
    ensures r.Ok? ==> s.functions.Keys <= r.value.functions.Keys
    ensures pos < |toks| && (|toks[pos]| < 2 || toks[pos][1] != ':') ==> r == Err(InvalidBlockDef(toks[pos]))
    decreases |toks| - pos
  {
    if pos == |toks| then Ok(s)
    else
      var t := toks[pos];
      if |t| < 2 || t[1] != ':' then Err(InvalidBlockDef(t))
      else if t[0] == 'f' then
        var d :- FunctionBlock(s, t, toks, pos + 1);
        Run(d.session, toks, d.next)
      else if t[0] == 'w' then
        if pos + 1 >= |toks| then Err(UnexpectedEof) else Run(s, toks, pos + 2)
      else Run(s, toks, pos + 1)
  }

  /** The label pass issues no ID of any kind: the function, global and
      native tables and the function counter come out as they went in. */
  lemma {:induction false} RunIssuesNoIds(s: Session, toks: seq<string>, pos: nat)
    requires pos <= |toks| && Run(s, toks, pos).Ok?
    ensures var s' := Run(s, toks, pos).value;
      && s'.functionIds == s.functionIds && s'.globalIds == s.globalIds
      && s'.functionCounter == s.functionCounter && s'.natives == s.natives
    decreases |toks| - pos
  {
    if pos < |toks| {
      var t := toks[pos];
      if t[0] == 'f' {
        var d := FunctionBlock(s, t, toks, pos + 1).value;
        RunIssuesNoIds(d.session, toks, d.next);
      } else if t[0] == 'w' {
        RunIssuesNoIds(s, toks, pos + 2);
      } else {
        RunIssuesNoIds(s, toks, pos + 1);
      }
    }
  }

  /** Hence after the label pass of a fresh session no call can be
      translated: its callee is never in the function table. */
  lemma CallNeverResolves(toks: seq<string>, name: string, pos: nat, fc: FloatConv)
    requires Run(Initial, toks, 0).Ok?
    requires pos + 1 < |toks| && toks[pos] == "call"
    ensures Translate(Run(Initial, toks, 0).value, name, toks, pos, fc) == Err(NotFound(toks[pos + 1]))
  {
    RunIssuesNoIds(Initial, toks, 0);
  }
}
