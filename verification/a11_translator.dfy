/** The a11 translator's two passes over a whole source. The label pass
    reads the block definitions: "f:" functions, whose bodies are laid out at
    once, "n:" natives and "w:" globals with their AML type. The translation
    pass writes the container: header with version, native names, the
    function count, every function as its laid-out size followed by its
    body in ID order, the entry function's ID, and the size of the global
    region. */
module A11Translator {
  import opened Base
  import opened Literals
  import opened A11Session
  import opened A11Function

  // ------------------------------------------------------------ label pass

  /** A declaration read: the session afterwards and where reading resumes. */
  datatype Declared = Declared(session: Session, next: nat)

  /** A function record agrees with laying out the body it points at. */
  predicate Recorded(toks: seq<string>, f: FunctionData) {
    && f.inpos <= |toks|
    && LayoutFrom(toks, f.inpos, 0, map[]).Ok?
    && LayoutFrom(toks, f.inpos, 0, map[]).value.labels == f.labels
    && LayoutFrom(toks, f.inpos, 0, map[]).value.size == f.size
  }

  /** Every function ID issued so far has a record that agrees with its
      body. */
  predicate AllRecorded(count: nat, functions: map<nat, FunctionData>, toks: seq<string>) {
    forall id: nat :: id < count ==> id in functions && Recorded(toks, functions[id])
  }

  /** The entry function is the one named "main", or ID 0 when there is
      none. */
  function MainId(s: Session): u32 {
    if "main" in s.functionIds then s.functionIds["main"] else 0
  }

  /** The natives are distinct, counted by the native counter, and each has
      its position in the list as native ID. */
  predicate NativesValid(count: nat, ids: map<string, u32>, natives: seq<string>) {
    && count == |natives|
    && Distinct(natives)
    && ids.Keys == Elements(natives)
    && (forall i :: 0 <= i < |natives| ==> ids[natives[i]] == i)
  }

  /** The shape the label pass keeps. The local region is empty: it is
      cleared for every function and only emission reserves locals. */
  predicate Wf(s: Session, toks: seq<string>) {
    && IdsValid(s)
    && AllRecorded(s.functionCounter, s.functions, toks)
    && s.main == MainId(s)
    && NativesValid(s.nativeCounter, s.nativeIds, s.natives)
    && RegionValid(s.globals)
    && s.locals == EmptyRegion
  }

  lemma InitialWf(toks: seq<string>)
    ensures Wf(Initial, toks)
  {
    EmptyRegionValid();
  }

  /** function(): the block token must be exactly "f:"; the name must be
      new and takes the next function ID; "main" becomes the entry. The
      local region is cleared and the body laid out under the new ID. */
  function Function(s: Session, block: string, toks: seq<string>, pos: nat): (r: Result<Declared>)
    requires pos <= |toks|
    ensures r.Ok? <==>
      && |block| <= 2 && pos < |toks| && toks[pos] !in s.functionIds
      && s.functionCounter < 0xFFFF_FFFF && PassFunction(toks, pos + 1).Ok?
    ensures |block| > 2 ==> r == Err(InvalidFunctionDef(block))
    ensures |block| <= 2 && pos < |toks| && toks[pos] in s.functionIds ==> r == Err(Redeclared(toks[pos]))
    ensures r.Ok? ==>
      && var lay := PassFunction(toks, pos + 1).value;
      && r.value.next == lay.next
      && r.value.session == s.(functionIds := s.functionIds[toks[pos] := s.functionCounter],
                               functionCounter := s.functionCounter + 1,
                               main := if toks[pos] == "main" then s.functionCounter else s.main,
                               locals := EmptyRegion,
                               functions := s.functions[s.functionCounter := FunctionData(pos + 1, lay.labels, lay.size)])
  {
    if |block| > 2 then Err(InvalidFunctionDef(block))
    else if pos >= |toks| then Err(UnexpectedEof)
    else
      var name := toks[pos];
      if name in s.functionIds then Err(Redeclared(name))
      else
        var created :- FunctionIdFor(s, name, true);
        var s1 := created.session.(main := if name == "main" then created.id else s.main, locals := EmptyRegion);
        var lay :- PassFunction(toks, pos + 1);
        Ok(Declared(s1.(functions := s1.functions[created.id := FunctionData(pos + 1, lay.labels, lay.size)]), lay.next))
  }

  /** Declaring a function keeps the label pass's shape. */
  lemma FunctionWf(s: Session, block: string, toks: seq<string>, pos: nat)
    requires pos <= |toks| && Function(s, block, toks, pos).Ok? && Wf(s, toks)
    ensures Wf(Function(s, block, toks, pos).value.session, toks)
  {
    var name := toks[pos];
    var c := s.functionCounter;
    var s' := Function(s, block, toks, pos).value.session;
    assert FunctionIdFor(s, name, true).value.session.functionIds == s'.functionIds;
    assert IdsValid(s');
    assert Recorded(toks, s'.functions[c]);
    forall id: nat | id < s'.functionCounter
      ensures id in s'.functions && Recorded(toks, s'.functions[id])
    {
      if id < c {
        assert s'.functions[id] == s.functions[id];
      }
    }
    MainAfterInsert(s, s', name);
  }

  /** The entry ID follows the name "main" through one new function. */
  lemma MainAfterInsert(s: Session, s': Session, name: string)
    requires name !in s.functionIds && s.main == MainId(s)
    requires s'.functionIds == s.functionIds[name := s.functionCounter]
    requires s'.main == (if name == "main" then s.functionCounter else s.main)
    ensures s'.main == MainId(s')
  {
  }

  /** native(): the block token must be exactly "n:"; the name must not be
      a native already and takes the next native ID. Natives share no IDs
      with functions, and a function may carry a native's name. */
  function Native(s: Session, block: string, toks: seq<string>, pos: nat): (r: Result<Declared>)
    requires pos <= |toks|
    ensures r.Ok? <==> |block| <= 2 && pos < |toks| && toks[pos] !in s.nativeIds && s.nativeCounter < 0xFFFF_FFFF
    ensures |block| > 2 ==> r == Err(InvalidNativeDef(block))
    ensures |block| <= 2 && pos < |toks| && toks[pos] in s.nativeIds ==> r == Err(DuplicateNative(toks[pos]))
    ensures r.Ok? ==>
      && r.value.next == pos + 1
      && r.value.session == s.(nativeIds := s.nativeIds[toks[pos] := s.nativeCounter],
                               nativeCounter := s.nativeCounter + 1,
                               natives := s.natives + [toks[pos]])
  {
    if |block| > 2 then Err(InvalidNativeDef(block))
    else if pos >= |toks| then Err(UnexpectedEof)
    else
      var name := toks[pos];
      if name in s.nativeIds then Err(DuplicateNative(name))
      else
        var issued :- NextId(s.nativeCounter);
        Ok(Declared(s.(nativeIds := s.nativeIds[name := issued.id], nativeCounter := issued.counter,
                       natives := s.natives + [name]), pos + 1))
  }

  /** Declaring a native keeps the natives distinct and numbered by
      position. */
  lemma {:induction false} NativeWf(s: Session, block: string, toks: seq<string>, pos: nat)
    requires pos <= |toks| && Native(s, block, toks, pos).Ok? && Wf(s, toks)
    ensures Wf(Native(s, block, toks, pos).value.session, toks)
  {
    var name := toks[pos];
    var s' := Native(s, block, toks, pos).value.session;
    var ns := s'.natives;
    assert name !in s.natives;
    forall i, j | 0 <= i < j < |ns|
      ensures ns[i] != ns[j]
    {
      if j < |s.natives| {
        assert ns[i] == s.natives[i] && ns[j] == s.natives[j];
      } else {
        assert ns[i] == s.natives[i];
      }
    }
    forall i | 0 <= i < |ns|
      ensures s'.nativeIds[ns[i]] == i
    {
      if i < |s.natives| {
        assert ns[i] == s.natives[i];
      }
    }
    assert Elements(ns) == Elements(s.natives) + {name};
  }

  /** The bytes a global of the given AML type takes. */
  function GlobalSize(amltype: string): (r: Result<u32>)
    ensures r.Ok? <==> amltype in {"i4", "i8", "f4", "f8"}
    ensures r.Ok? ==> r.value as int == amltype[1] as int - '0' as int
    ensures r.Err? ==> r == Err(InvalidType(amltype))
  {
    if amltype == "i4" then Ok(4)
    else if amltype == "i8" then Ok(8)
    else if amltype == "f4" then Ok(4)
    else if amltype == "f8" then Ok(8)
    else Err(InvalidType(amltype))
  }

  /** globalvar(): the AML type, then the name, which gets an offset in the
      global region sized by the type. A name seen before keeps its first
      offset and size. */
  function Globalvar(s: Session, toks: seq<string>, pos: nat): (r: Result<Declared>)
    requires pos <= |toks|
    ensures r.Ok? <==>
      && pos + 1 < |toks| && GlobalSize(toks[pos]).Ok?
      && (toks[pos + 1] in s.globals.mpos || s.globals.counter + GlobalSize(toks[pos]).value < U32)
    ensures pos < |toks| && GlobalSize(toks[pos]).Err? ==> r == Err(InvalidType(toks[pos]))
    ensures r.Ok? ==>
      && r.value.next == pos + 2
      && MPosFor(s.globals, toks[pos + 1], true, GlobalSize(toks[pos]).value).Ok?
      && r.value.session == s.(globals := MPosFor(s.globals, toks[pos + 1], true, GlobalSize(toks[pos]).value).value.region)
  {
    if pos >= |toks| then Err(UnexpectedEof)
    else
      var size :- GlobalSize(toks[pos]);
      if pos + 1 >= |toks| then Err(UnexpectedEof)
      else
        var placed :- MPosFor(s.globals, toks[pos + 1], true, size);
        Ok(Declared(s.(globals := placed.region), pos + 2))
  }

  /** Declaring a global keeps the global region's shape and touches
      nothing else. */
  lemma GlobalvarWf(s: Session, toks: seq<string>, pos: nat)
    requires pos <= |toks| && Globalvar(s, toks, pos).Ok? && Wf(s, toks)
    ensures Wf(Globalvar(s, toks, pos).value.session, toks)
  {
    var placed := MPosFor(s.globals, toks[pos + 1], true, GlobalSize(toks[pos]).value).value;
    var s' := s.(globals := placed.region);
    assert Globalvar(s, toks, pos).value.session == s';
    assert RegionValid(s'.globals);
  }

  /** labelPass from position pos to the end of the tokens. Every block
      token must have ':' as its second character; "f", "n" and "w" blocks
      are read, any other kind is skipped. */
  function LabelPass(s: Session, toks: seq<string>, pos: nat): (r: Result<Session>)
    requires pos <= |toks|
    ensures pos < |toks| && (|toks[pos]| < 2 || toks[pos][1] != ':') ==> r == Err(InvalidBlockDef(toks[pos]))
    ensures pos == |toks| ==> r == Ok(s)
    ensures r.Ok? ==> s.functionIds.Keys <= r.value.functionIds.Keys && s.globals.mpos.Keys <= r.value.globals.mpos.Keys
    ensures r.Ok? ==> s.functionCounter <= r.value.functionCounter && Elements(s.natives) <= Elements(r.value.natives)
    decreases |toks| - pos
  {
    if pos == |toks| then Ok(s)
    else
      var t := toks[pos];
      if |t| < 2 || t[1] != ':' then Err(InvalidBlockDef(t))
      else if t[0] == 'f' then
        var d :- Function(s, t, toks, pos + 1);
        LabelPass(d.session, toks, d.next)
      else if t[0] == 'n' then
        var d :- Native(s, t, toks, pos + 1);
        LabelPass(d.session, toks, d.next)
      else if t[0] == 'w' then
        var d :- Globalvar(s, toks, pos + 1);
        LabelPass(d.session, toks, d.next)
      else LabelPass(s, toks, pos + 1)
  }

  /** The label pass keeps its shape from any well-formed start. */
  lemma {:induction false} LabelPassWf(s: Session, toks: seq<string>, pos: nat)
    requires pos <= |toks| && LabelPass(s, toks, pos).Ok? && Wf(s, toks)
    ensures Wf(LabelPass(s, toks, pos).value, toks)
    decreases |toks| - pos
  {
    if pos < |toks| {
      var t := toks[pos];
      if t[0] == 'f' {
        FunctionWf(s, t, toks, pos + 1);
        var d := Function(s, t, toks, pos + 1).value;
        LabelPassWf(d.session, toks, d.next);
      } else if t[0] == 'n' {
        NativeWf(s, t, toks, pos + 1);
        var d := Native(s, t, toks, pos + 1).value;
        LabelPassWf(d.session, toks, d.next);
      } else if t[0] == 'w' {
        GlobalvarWf(s, toks, pos + 1);
        var d := Globalvar(s, toks, pos + 1).value;
        LabelPassWf(d.session, toks, d.next);
      } else {
        LabelPassWf(s, toks, pos + 1);
      }
    }
  }

  // ------------------------------------------------------- translation pass

  /** "ABY", the escape byte 27, then the 16-bit version 0. */
  const Header: seq<byte> := [0x41, 0x42, 0x59, 27, 0, 0]

  /** The native names as written: each name's characters as bytes, then a
      NUL. */
  function NativeNames(names: seq<string>): seq<byte> {
    if names == [] then [] else Bytes(names[0]) + [0] + NativeNames(names[1..])
  }

  /** Reads count NUL-terminated names that fill bs exactly. */
  function ReadNames(bs: seq<byte>, count: nat): Option<seq<string>>
    decreases count
  {
    if count == 0 then (if bs == [] then Some([]) else None)
    else match FirstNul(bs)
      case None => None
      case Some(i) =>
        match ReadNames(bs[i + 1..], count - 1)
        case None => None
        case Some(rest) => Some([Chars(bs[..i])] + rest)
  }

  /** Reading back as many names as were written yields the names, as long
      as each is plain. */
  lemma {:induction false} ReadNativeNames(names: seq<string>)
    requires forall k :: 0 <= k < |names| ==> PlainName(names[k])
    ensures ReadNames(NativeNames(names), |names|) == Some(names)
  {
    if names != [] {
      var b := Bytes(names[0]);
      var rest := NativeNames(names[1..]);
      var bs := b + [0] + rest;
      assert NativeNames(names) == bs;
      PlainNameBytes(names[0]);
      FirstNulAfter(b, rest);
      assert bs[|b| + 1..] == rest;
      assert bs[..|b|] == b;
      ReadNativeNames(names[1..]);
      assert [names[0]] + names[1..] == names;
    }
  }

  /** writeNativeData: the 32-bit native count, then the names in
      declaration order. The loop runs over the counter and indexes the
      list, so the two must agree. */
  function NativeData(s: Session): (r: seq<byte>)
    requires s.nativeCounter == |s.natives|
    ensures |r| >= 4 && FromLE(r[..4]) == |s.natives|
    ensures (forall k :: 0 <= k < |s.natives| ==> PlainName(s.natives[k])) ==>
      ReadNames(r[4..], FromLE(r[..4])) == Some(s.natives)
  {
    var count := LE(s.nativeCounter, 4);
    var r := count + NativeNames(s.natives);
    FromLEOfLE(s.nativeCounter, 4);
    OffsetField(s.nativeCounter);
    assert r[..4] == count && r[4..] == NativeNames(s.natives);
    if forall k :: 0 <= k < |s.natives| ==> PlainName(s.natives[k]) then
      ReadNativeNames(s.natives);
      r
    else r
  }

  /** The size fields of the functions with IDs id up to count: each laid-out
      size as four little-endian bytes. */
  function SizeFields(functions: map<nat, FunctionData>, id: nat, count: nat): (r: seq<seq<byte>>)
    requires id <= count && forall i :: id <= i < count ==> i in functions
    ensures |r| == count - id
    ensures forall k :: 0 <= k < count - id ==> r[k] == LE(functions[id + k].size, 4)
    decreases count - id
  {
    if id == count then [] else [LE(functions[id].size, 4)] + SizeFields(functions, id + 1, count)
  }

  /** The emitted bodies and the session after the last one. */
  datatype Bodies = Bodies(bodies: seq<seq<byte>>, session: Session)

  /** writeFunctions' loop from ID id: each body is emitted from its
      recorded start with its recorded labels, and the session is threaded
      through. The local region is not cleared between bodies, so a local
      reserved in one body keeps its offset in the bodies after it. */
  function WriteBodies(s: Session, toks: seq<string>, fc: FloatConv, id: nat, count: nat): (r: Result<Bodies>)
    requires id <= count
    requires forall i :: id <= i < count ==> i in s.functions && s.functions[i].inpos <= |toks|
    ensures r.Ok? ==> |r.value.bodies| == count - id
    ensures r.Ok? ==>
      && r.value.session.functions == s.functions
      && r.value.session.functionIds == s.functionIds
      && r.value.session.functionCounter == s.functionCounter
      && r.value.session.main == s.main
      && r.value.session.natives == s.natives
    decreases count - id
  {
    if id == count then Ok(Bodies([], s))
    else
      var f := s.functions[id];
      var body :- EmitFrom(s, f.labels, toks, f.inpos, fc);
      var rest :- WriteBodies(body.session, toks, fc, id + 1, count);
      Ok(Bodies([body.bytes] + rest.bodies, rest.session))
  }

  /** Each body, the first for function id, is its laid-out size less four
      bytes for each if and ifn in it. */
  predicate SizedBodies(functions: map<nat, FunctionData>, toks: seq<string>, bodies: seq<seq<byte>>, id: nat)
    decreases |bodies|
  {
    bodies == [] ||
      (&& id in functions && functions[id].inpos <= |toks|
       && |bodies[0]| + 4 * Branches(toks, functions[id].inpos) == functions[id].size
       && SizedBodies(functions, toks, bodies[1..], id + 1))
  }

  /** Body k of a run that starts at function id belongs to function id + k. */
  lemma {:induction false} SizedAt(functions: map<nat, FunctionData>, toks: seq<string>, bodies: seq<seq<byte>>, id: nat, k: nat)
    requires SizedBodies(functions, toks, bodies, id) && k < |bodies|
    ensures id + k in functions && functions[id + k].inpos <= |toks|
    ensures |bodies[k]| + 4 * Branches(toks, functions[id + k].inpos) == functions[id + k].size
    decreases k
  {
    if k > 0 {
      SizedAt(functions, toks, bodies[1..], id + 1, k - 1);
      assert bodies[1..][k - 1] == bodies[k];
      assert id + 1 + (k - 1) == id + k;
    }
  }

  /** One step of writeFunctions' loop. */
  lemma WriteBodiesStep(s: Session, toks: seq<string>, fc: FloatConv, id: nat, count: nat)
      returns (body: Emitted, rest: Bodies)
    requires id < count && forall i :: id <= i < count ==> i in s.functions && s.functions[i].inpos <= |toks|
    requires WriteBodies(s, toks, fc, id, count).Ok?
    ensures EmitFrom(s, s.functions[id].labels, toks, s.functions[id].inpos, fc) == Ok(body)
    ensures body.session.functions == s.functions
    ensures WriteBodies(body.session, toks, fc, id + 1, count) == Ok(rest)
    ensures WriteBodies(s, toks, fc, id, count).value.bodies == [body.bytes] + rest.bodies
  {
    var f := s.functions[id];
    body := EmitFrom(s, f.labels, toks, f.inpos, fc).value;
    rest := WriteBodies(body.session, toks, fc, id + 1, count).value;
  }

  /** A body emitted from a record that agrees with its layout is the
      laid-out size less four bytes for each if and ifn. */
  lemma RecordedBodySize(s: Session, toks: seq<string>, fc: FloatConv, f: FunctionData, body: Emitted)
    requires Recorded(toks, f) && EmitFrom(s, f.labels, toks, f.inpos, fc) == Ok(body)
    ensures |body.bytes| + 4 * Branches(toks, f.inpos) == f.size
  {
    FunctionWidths(s, toks, f.inpos, fc);
  }

  /** Every body written has the size its record promises, less four bytes
      for each if and ifn. */
  lemma {:induction false} BodySizes(s: Session, toks: seq<string>, fc: FloatConv, id: nat, count: nat)
    requires id <= count && AllRecorded(count, s.functions, toks)
    requires WriteBodies(s, toks, fc, id, count).Ok?
    ensures SizedBodies(s.functions, toks, WriteBodies(s, toks, fc, id, count).value.bodies, id)
    decreases count - id
  {
    if id < count {
      var body, rest := WriteBodiesStep(s, toks, fc, id, count);
      RecordedBodySize(s, toks, fc, s.functions[id], body);
      BodySizes(body.session, toks, fc, id + 1, count);
      SizedCons(s.functions, toks, body.bytes, rest.bodies, id);
    }
  }

  lemma SizedCons(functions: map<nat, FunctionData>, toks: seq<string>, b: seq<byte>, bs: seq<seq<byte>>, id: nat)
    requires id in functions && functions[id].inpos <= |toks|
    requires |b| + 4 * Branches(toks, functions[id].inpos) == functions[id].size
    requires SizedBodies(functions, toks, bs, id + 1)
    ensures SizedBodies(functions, toks, [b] + bs, id)
  {
    assert ([b] + bs)[0] == b && ([b] + bs)[1..] == bs;
  }

  /** Writing the bodies keeps both regions' shape. */
  lemma {:induction false} WriteBodiesKeepsRegions(s: Session, toks: seq<string>, fc: FloatConv, id: nat, count: nat)
    requires id <= count && forall i :: id <= i < count ==> i in s.functions && s.functions[i].inpos <= |toks|
    requires WriteBodies(s, toks, fc, id, count).Ok?
    requires RegionValid(s.globals) && RegionValid(s.locals)
    ensures RegionValid(WriteBodies(s, toks, fc, id, count).value.session.globals)
    ensures RegionValid(WriteBodies(s, toks, fc, id, count).value.session.locals)
    decreases count - id
  {
    if id < count {
      var f := s.functions[id];
      var body := EmitFrom(s, f.labels, toks, f.inpos, fc).value;
      EmitFromKeepsRegions(s, f.labels, toks, f.inpos, fc);
      WriteBodiesKeepsRegions(body.session, toks, fc, id + 1, count);
    }
  }

  /** Each function as written: its 4-byte size field, then its body. */
  function Frames(fields: seq<seq<byte>>, bodies: seq<seq<byte>>): seq<byte>
    requires |fields| == |bodies|
  {
    if fields == [] then [] else fields[0] + bodies[0] + Frames(fields[1..], bodies[1..])
  }

  predicate FourByteFields(fields: seq<seq<byte>>) {
    forall i :: 0 <= i < |fields| ==> |fields[i]| == 4
  }

  /** Where the frame of function k starts: after the size fields and
      bodies of the functions before it. */
  function FrameStart(bodies: seq<seq<byte>>, k: nat): nat
    requires k <= |bodies|
  {
    if k == 0 then 0 else 4 + |bodies[0]| + FrameStart(bodies[1..], k - 1)
  }

  /** Frame k holds field k, then body k. */
  lemma {:induction false} FrameAt(fields: seq<seq<byte>>, bodies: seq<seq<byte>>, k: nat)
    requires |fields| == |bodies| && k < |fields| && FourByteFields(fields)
    ensures FrameStart(bodies, k) + 4 + |bodies[k]| <= |Frames(fields, bodies)|
    ensures Frames(fields, bodies)[FrameStart(bodies, k)..FrameStart(bodies, k) + 4 + |bodies[k]|]
         == fields[k] + bodies[k]
    decreases k
  {
    var head := fields[0] + bodies[0];
    var rest := Frames(fields[1..], bodies[1..]);
    assert Frames(fields, bodies) == head + rest + [];
    if k == 0 {
      Within([], head, rest, head, 0, |head|, 0, |head|);
      assert [] + head + rest == head + rest + [];
    } else {
      assert fields[1..][k - 1] == fields[k] && bodies[1..][k - 1] == bodies[k];
      assert FourByteFields(fields[1..]) by {
        forall i | 0 <= i < |fields[1..]| ensures |fields[1..][i]| == 4 {
          assert fields[1..][i] == fields[i + 1];
        }
      }
      FrameAt(fields[1..], bodies[1..], k - 1);
      var at := FrameStart(bodies[1..], k - 1);
      Within(head, rest, [], fields[k] + bodies[k], at, at + 4 + |bodies[k]|,
        FrameStart(bodies, k), FrameStart(bodies, k) + 4 + |bodies[k]|);
    }
  }

  /** A run of bytes found inside the middle part of a sequence is found in
      the whole, shifted by the first part. */
  lemma Within(head: seq<byte>, mid: seq<byte>, tail: seq<byte>, x: seq<byte>, at: nat, e: nat, i: nat, j: nat)
    requires at <= e <= |mid| && mid[at..e] == x
    requires i == |head| + at && j == |head| + e
    ensures j <= |head + mid + tail| && (head + mid + tail)[i..j] == x
  {
    var whole := head + mid + tail;
    forall n | 0 <= n < |x|
      ensures whole[i + n] == x[n]
    {
      assert whole[i + n] == mid[at + n];
    }
  }

  /** In a function section, frame k starts after the 4-byte count. */
  lemma SectionFrame(s: Session, bodies: seq<seq<byte>>, k: nat)
    requires forall i :: 0 <= i < s.functionCounter ==> i in s.functions
    requires |bodies| == s.functionCounter && k < |bodies|
    ensures 4 + FrameStart(bodies, k) + 4 + |bodies[k]| <= |FunctionSection(s, bodies)|
    ensures FunctionSection(s, bodies)[4 + FrameStart(bodies, k)..4 + FrameStart(bodies, k) + 4 + |bodies[k]|]
         == LE(s.functions[k].size, 4) + bodies[k]
  {
    var fields := SizeFields(s.functions, 0, s.functionCounter);
    var x := LE(s.functions[k].size, 4) + bodies[k];
    assert Frames(fields, bodies)[FrameStart(bodies, k)..FrameStart(bodies, k) + 4 + |bodies[k]|] == x by {
      assert FourByteFields(fields);
      FrameAt(fields, bodies, k);
      assert fields[k] == LE(s.functions[k].size, 4);
    }
    Within(LE(s.functionCounter, 4), Frames(fields, bodies), LE(s.main, 4), x,
      FrameStart(bodies, k), FrameStart(bodies, k) + 4 + |bodies[k]|,
      4 + FrameStart(bodies, k), 4 + FrameStart(bodies, k) + 4 + |bodies[k]|);
  }

  /** writeFunctions: the 32-bit function count, every function's frame in
      ID order, then the entry function's ID. */
  function FunctionSection(s: Session, bodies: seq<seq<byte>>): (r: seq<byte>)
    requires forall i :: 0 <= i < s.functionCounter ==> i in s.functions
    requires |bodies| == s.functionCounter
    ensures |r| == 8 + |Frames(SizeFields(s.functions, 0, s.functionCounter), bodies)|
  {
    LE(s.functionCounter, 4) + Frames(SizeFields(s.functions, 0, s.functionCounter), bodies) + LE(s.main, 4)
  }

  /** The function section opens with the function count and closes with
      the entry function's ID, each read back as written. */
  lemma SectionEnds(s: Session, bodies: seq<seq<byte>>)
    requires forall i :: 0 <= i < s.functionCounter ==> i in s.functions
    requires |bodies| == s.functionCounter
    ensures var r := FunctionSection(s, bodies);
      |r| >= 8 && FromLE(r[..4]) == s.functionCounter && FromLE(r[|r| - 4..]) == s.main
  {
    var r := FunctionSection(s, bodies);
    FromLEOfLE(s.functionCounter, 4);
    FromLEOfLE(s.main, 4);
    OffsetField(s.functionCounter);
    OffsetField(s.main);
    assert r[..4] == LE(s.functionCounter, 4);
    assert r[|r| - 4..] == LE(s.main, 4);
  }

  /** writeGlobalvarData: the global counter, which in a well-shaped region
      is the bytes reserved for all globals. */
  function GlobalvarData(g: Region): (r: seq<byte>)
    ensures |r| == 4 && FromLE(r) == g.counter
    ensures RegionValid(g) ==> FromLE(r) == Total(g.reserved)
  {
    FromLEOfLE(g.counter, 4);
    OffsetField(g.counter);
    LE(g.counter, 4)
  }

  /** The sections of an a11 container. */
  datatype Image = Image(header: seq<byte>, nativeData: seq<byte>, functionData: seq<byte>, globalData: seq<byte>)
  {
    function Bytes(): seq<byte> {
      header + nativeData + functionData + globalData
    }
  }

  /** translationPass: the sections in order. The global count is written
      last, from the session after the bodies, so it covers globals that
      loadwide reserved while emitting. */
  function TranslationPass(s: Session, toks: seq<string>, fc: FloatConv): (r: Result<Image>)
    requires Wf(s, toks)
    ensures r.Ok? <==> WriteBodies(s, toks, fc, 0, s.functionCounter).Ok?
    ensures r.Ok? ==>
      && var written := WriteBodies(s, toks, fc, 0, s.functionCounter).value;
      && r.value.header == Header
      && r.value.nativeData == NativeData(s)
      && r.value.functionData == FunctionSection(s, written.bodies)
      && r.value.globalData == GlobalvarData(written.session.globals)
  {
    var written :- WriteBodies(s, toks, fc, 0, s.functionCounter);
    Ok(Image(Header, NativeData(s), FunctionSection(s, written.bodies), GlobalvarData(written.session.globals)))
  }

  /** The global count written is the bytes reserved for all globals,
      including those loadwide reserved while the bodies were emitted. */
  lemma TranslatedGlobals(s: Session, toks: seq<string>, fc: FloatConv)
    requires Wf(s, toks) && TranslationPass(s, toks, fc).Ok?
    ensures FromLE(TranslationPass(s, toks, fc).value.globalData)
         == Total(WriteBodies(s, toks, fc, 0, s.functionCounter).value.session.globals.reserved)
  {
    EmptyRegionValid();
    WriteBodiesKeepsRegions(s, toks, fc, 0, s.functionCounter);
  }

  /** Around bodies of the promised sizes, frame k of the function section
      is function k's size as a 4-byte field, then body k, and that size is
      body k's length plus four for every if and ifn in it. */
  lemma SizedFrame(s: Session, toks: seq<string>, bodies: seq<seq<byte>>, k: nat)
    requires forall i :: 0 <= i < s.functionCounter ==> i in s.functions
    requires |bodies| == s.functionCounter && k < |bodies|
    requires SizedBodies(s.functions, toks, bodies, 0)
    ensures
      var fd := FunctionSection(s, bodies);
      var at := 4 + FrameStart(bodies, k);
      && at + 4 + |bodies[k]| <= |fd|
      && fd[at..at + 4 + |bodies[k]|] == LE(s.functions[k].size, 4) + bodies[k]
      && s.functions[k].inpos <= |toks|
      && s.functions[k].size == |bodies[k]| + 4 * Branches(toks, s.functions[k].inpos)
  {
    SectionFrame(s, bodies, k);
    SizedAt(s.functions, toks, bodies, 0, k);
    assert 0 + k == k;
  }

  /** A native section that reads back: the count of natives, then their
      names whenever every name is plain. */
  predicate NativesReadBack(s: Session, nd: seq<byte>) {
    && |nd| >= 4 && FromLE(nd[..4]) == |s.natives|
    && ((forall k :: 0 <= k < |s.natives| ==> PlainName(s.natives[k])) ==>
          ReadNames(nd[4..], |s.natives|) == Some(s.natives))
  }

  /** Frame k of a function section: function k's recorded size as a 4-byte
      field, then body k, where that size is the body's length plus four for
      every if and ifn in it. */
  predicate SizedFrameAt(s: Session, toks: seq<string>, bodies: seq<seq<byte>>, fd: seq<byte>, k: nat)
    requires k < |bodies|
  {
    var at := 4 + FrameStart(bodies, k);
    && k in s.functions && s.functions[k].inpos <= |toks|
    && at + 4 + |bodies[k]| <= |fd|
    && fd[at..at + 4 + |bodies[k]|] == LE(s.functions[k].size, 4) + bodies[k]
    && s.functions[k].size == |bodies[k]| + 4 * Branches(toks, s.functions[k].inpos)
  }

  /** A function section that reads back: the function count, one frame per
      function, and the entry function's ID at the end. */
  predicate SectionReadsBack(s: Session, toks: seq<string>, bodies: seq<seq<byte>>, fd: seq<byte>) {
    && |bodies| == s.functionCounter
    && |fd| >= 8 && FromLE(fd[..4]) == s.functionCounter && FromLE(fd[|fd| - 4..]) == MainId(s)
    && forall k :: 0 <= k < |bodies| ==> SizedFrameAt(s, toks, bodies, fd, k)
  }

  /** The function section around bodies of the recorded sizes reads back. */
  lemma FunctionSectionReadsBack(s: Session, toks: seq<string>, bodies: seq<seq<byte>>)
    requires forall i :: 0 <= i < s.functionCounter ==> i in s.functions
    requires |bodies| == s.functionCounter && s.main == MainId(s)
    requires SizedBodies(s.functions, toks, bodies, 0)
    ensures SectionReadsBack(s, toks, bodies, FunctionSection(s, bodies))
  {
    SectionEnds(s, bodies);
    forall k | 0 <= k < |bodies|
      ensures SizedFrameAt(s, toks, bodies, FunctionSection(s, bodies), k)
    {
      SizedFrame(s, toks, bodies, k);
    }
  }

  /** What a successful translation pass writes, section by section: the
      fixed header; native data that reads back; a function section that
      reads back around the emitted bodies; and, last, the bytes reserved
      for all globals once the bodies are written. */
  lemma TranslationImage(s: Session, toks: seq<string>, fc: FloatConv, im: Image, written: Bodies)
    requires Wf(s, toks) && TranslationPass(s, toks, fc) == Ok(im)
    requires WriteBodies(s, toks, fc, 0, s.functionCounter) == Ok(written)
    ensures im.header == Header
    ensures NativesReadBack(s, im.nativeData)
    ensures SectionReadsBack(s, toks, written.bodies, im.functionData)
    ensures FromLE(im.globalData) == Total(written.session.globals.reserved)
  {
    BodySizes(s, toks, fc, 0, s.functionCounter);
    FunctionSectionReadsBack(s, toks, written.bodies);
    TranslatedGlobals(s, toks, fc);
  }

  /** A whole a11 job on a token stream: the label pass from a fresh
      translator, then the translation pass. */
  function Assemble(toks: seq<string>, fc: FloatConv): (r: Result<Image>)
    ensures r.Ok? ==> LabelPass(Initial, toks, 0).Ok? && Wf(LabelPass(Initial, toks, 0).value, toks)
    ensures r.Ok? ==> r == TranslationPass(LabelPass(Initial, toks, 0).value, toks, fc)
    ensures LabelPass(Initial, toks, 0).Err? ==> r == Err(LabelPass(Initial, toks, 0).error)
  {
    InitialWf(toks);
    var s :- LabelPass(Initial, toks, 0);
    LabelPassWf(Initial, toks, 0);
    TranslationPass(s, toks, fc)
  }
}
