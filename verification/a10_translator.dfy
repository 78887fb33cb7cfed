/** The a10 translator's two passes over a whole source. The label pass
    reads the block definitions: "f:" functions (native or with a body that
    is laid out at once) and "w:" globals. The translation pass writes the
    container: header, native table, global count, function table with
    file offsets computed from the layout sizes, and the function bodies in
    name order. */
module A10Translator {
  import opened Base
  import opened Literals
  import opened A10Session
  import opened A10Function

  // ------------------------------------------------------------ label pass

  datatype Flags = Flags(native: bool, isVoid: bool)

  /** The flag scan over the characters after "f:": 'n' and 'v' may each
      appear once, anything else is ignored. */
  function ScanFlags(cs: string, f: Flags): (r: Result<Flags>)
    ensures r.Ok? <==> (!f.native || 'n' !in cs) && (!f.isVoid || 'v' !in cs)
                       && multiset(cs)['n'] <= 1 && multiset(cs)['v'] <= 1
    ensures r.Ok? ==> (r.value.native <==> f.native || 'n' in cs) && (r.value.isVoid <==> f.isVoid || 'v' in cs)
  {
    if cs == [] then Ok(f)
    else
      assert cs == [cs[0]] + cs[1..];
      assert multiset(cs) == multiset{cs[0]} + multiset(cs[1..]);
      if cs[0] == 'n' then
        if f.native then Err(InvalidFunctionDef(cs)) else ScanFlags(cs[1..], f.(native := true))
      else if cs[0] == 'v' then
        if f.isVoid then Err(InvalidFunctionDef(cs)) else ScanFlags(cs[1..], f.(isVoid := true))
      else ScanFlags(cs[1..], f)
  }

  /** The flags of a function block token such as "f:", "f:n" or "f:nv". A
      token longer than four characters is rejected before any flag is read. */
  function ParseFlags(token: string): (r: Result<Flags>)
    requires |token| >= 2
    ensures r.Ok? <==> |token| <= 4 && multiset(token[2..])['n'] <= 1 && multiset(token[2..])['v'] <= 1
    ensures r.Ok? ==> (r.value.native <==> 'n' in token[2..]) && (r.value.isVoid <==> 'v' in token[2..])
    ensures r.Err? ==> r.error == InvalidFunctionDef(token)
  {
    if |token| > 4 then Err(InvalidFunctionDef(token))
    else
      match ScanFlags(token[2..], Flags(false, false))
      case Ok(f) => Ok(f)
      case Err(_) => Err(InvalidFunctionDef(token))
  }

  /** A declaration read: the session afterwards and where reading resumes. */
  datatype Declared = Declared(session: Session, next: nat)

  /** A function record agrees with laying out the body it points at. */
  predicate Recorded(toks: seq<string>, f: FunctionData) {
    && f.inpos <= |toks|
    && LayoutFrom(toks, f.inpos, 0, map[]).Ok?
    && LayoutFrom(toks, f.inpos, 0, map[]).value.labels == f.labels
    && LayoutFrom(toks, f.inpos, 0, map[]).value.size == f.size
  }

  /** The shape the label pass keeps: natives are distinct declared
      functions, every other declared function has a layout record that
      agrees with its body, and the ID tables are valid. */
  predicate Wf(s: Session, toks: seq<string>) {
    && Valid(s)
    && Distinct(s.natives)
    && (forall n :: n in s.natives ==> n in s.functionIds)
    && (forall n :: n in s.functionIds && n !in s.natives ==> n in s.functions)
    && AllRecorded(s, toks)
  }

  /** Every layout record matches a fresh layout walk of its body. */
  predicate AllRecorded(s: Session, toks: seq<string>) {
    forall n :: n in s.functions ==> Recorded(toks, s.functions[n])
  }

  lemma InitialWf(toks: seq<string>)
    ensures Wf(Initial, toks)
  {
  }

  /** function(): the block token's flags, then the name, which must be new;
      it takes the next function ID. A native is appended to the native list;
      any other function has its local table reset and its body laid out
      right away. */
  function Function(s: Session, block: string, toks: seq<string>, pos: nat): (r: Result<Declared>)
    requires |block| >= 2 && pos <= |toks|
    ensures r.Ok? ==> ParseFlags(block).Ok? && pos < r.value.next <= |toks|
    ensures pos < |toks| && toks[pos] in s.functionIds && ParseFlags(block).Ok? ==> r == Err(Redeclared(toks[pos]))
    ensures r.Ok? ==>
      && toks[pos] !in s.functionIds
      && r.value.session.functionIds == s.functionIds[toks[pos] := s.functionCounter]
      && r.value.session.functionCounter == s.functionCounter + 1
      && r.value.session.globalIds == s.globalIds
    ensures r.Ok? && ParseFlags(block).value.native ==>
      r.value.session.natives == s.natives + [toks[pos]] && r.value.session.functions == s.functions
    ensures r.Ok? && !ParseFlags(block).value.native ==>
      && r.value.session.natives == s.natives
      && r.value.session.localIds == map[]
      && PassFunction(toks, pos + 1).Ok?
      && var lay := PassFunction(toks, pos + 1).value;
         r.value.session.functions == s.functions[toks[pos] := FunctionData(pos + 1, lay.labels, lay.size)]
         && r.value.next == lay.next
    ensures r.Ok? && Wf(s, toks) ==> Wf(r.value.session, toks)
    // the duplicate check of nativeFunction never fires: the name was just
    // found absent from the function table, which holds every native
    ensures r.Err? && Wf(s, toks) ==> !r.error.DuplicateNative?
    ensures r.Err? ==> (r.error == UnexpectedEof || r.error.InvalidFunctionDef? || r.error.Redeclared?
      || r.error == IdOverflow || r.error.DuplicateNative? || r.error.UnknownPushType?)
  {
    var flags :- ParseFlags(block);
    if pos >= |toks| then Err(UnexpectedEof)
    else
      var name := toks[pos];
      if name in s.functionIds then Err(Redeclared(name))
      else
        var created :- IdFor(s, Functions, name, true);
        var s1 := created.session;
        if flags.native then
          if name in s1.natives then
            assert !Wf(s, toks);
            Err(DuplicateNative(name))
          else
            var s2 := s1.(natives := s1.natives + [name]);
            assert Wf(s, toks) ==> Wf(s2, toks) by {
              if Wf(s, toks) {
                assert forall i :: 0 <= i < |s.natives| ==> s2.natives[i] == s.natives[i];
              }
            }
            Ok(Declared(s2, pos + 1))
        else
          var lay :- PassFunction(toks, pos + 1);
          var s2 := ClearLocals(s1).(functions := s1.functions[name := FunctionData(pos + 1, lay.labels, lay.size)]);
          Ok(Declared(s2, lay.next))
  }

  /** globalvar(): the name is registered in the global table, keeping an
      existing entry. */
  function Globalvar(s: Session, toks: seq<string>, pos: nat): (r: Result<Declared>)
    requires pos <= |toks|
    ensures r.Ok? <==> pos < |toks| && (toks[pos] in s.globalIds || s.functionCounter < 0xFFFF)
    ensures r.Ok? ==>
      && r.value.next == pos + 1
      && toks[pos] in r.value.session.globalIds
      && r.value.session.globalIds.Keys == s.globalIds.Keys + {toks[pos]}
      && r.value.session.functionIds == s.functionIds
      && r.value.session.functions == s.functions
      && r.value.session.natives == s.natives
    ensures r.Ok? && Wf(s, toks) ==> Wf(r.value.session, toks)
  {
    if pos >= |toks| then Err(UnexpectedEof)
    else
      var found :- IdFor(s, Globals, toks[pos], true);
      Ok(Declared(found.session, pos + 1))
  }

  /** labelPass from position pos to the end of the tokens. Every block token
      must have ':' as its second character; 'f' and 'w' blocks are read,
      any other kind is skipped. */
  function LabelPass(s: Session, toks: seq<string>, pos: nat): (r: Result<Session>)
    requires pos <= |toks|
    ensures r.Ok? && Wf(s, toks) ==> Wf(r.value, toks)
    ensures r.Ok? ==> s.functionIds.Keys <= r.value.functionIds.Keys && s.globalIds.Keys <= r.value.globalIds.Keys
    ensures pos < |toks| && (|toks[pos]| < 2 || toks[pos][1] != ':') ==> r == Err(InvalidBlockDef(toks[pos]))
    decreases |toks| - pos
  {
    if pos == |toks| then Ok(s)
    else
      var t := toks[pos];
      if |t| < 2 || t[1] != ':' then Err(InvalidBlockDef(t))
      else if t[0] == 'f' then
        var d :- Function(s, t, toks, pos + 1);
        LabelPass(d.session, toks, d.next)
      else if t[0] == 'w' then
        var d :- Globalvar(s, toks, pos + 1);
        LabelPass(d.session, toks, d.next)
      else LabelPass(s, toks, pos + 1)
  }

  // ------------------------------------------------------- translation pass

  const Header: seq<byte> := [0x41, 0x42, 0x59, 27]

  /** One native entry: the name's bytes, a NUL, the 2-byte function ID. */
  function NativeEntries(s: Session, names: seq<string>): (r: seq<byte>)
    requires forall n :: n in names ==> n in s.functionIds
    ensures |r| == NativeEntriesLength(names)
  {
    if names == [] then []
    else Bytes(names[0]) + [0] + LE(s.functionIds[names[0]], 2) + NativeEntries(s, names[1..])
  }

  function NativeEntriesLength(names: seq<string>): nat {
    if names == [] then 0 else |names[0]| + 3 + NativeEntriesLength(names[1..])
  }

  /** The (name, 16-bit function ID) pairs a list of natives is written as. */
  function Listed(s: Session, names: seq<string>): (r: seq<(string, nat)>)
    requires forall n :: n in names ==> n in s.functionIds
    ensures |r| == |names|
    ensures forall k :: 0 <= k < |names| ==> r[k] == (names[k], s.functionIds[names[k]] % U16)
  {
    if names == [] then [] else [(names[0], s.functionIds[names[0]] % U16)] + Listed(s, names[1..])
  }

  /** Reads count native entries that fill bs exactly, each a
      NUL-terminated name followed by a 16-bit little-endian ID. */
  function ReadEntries(bs: seq<byte>, count: nat): Option<seq<(string, nat)>>
    decreases count
  {
    if count == 0 then (if bs == [] then Some([]) else None)
    else match FirstNul(bs)
      case None => None
      case Some(i) =>
        if |bs| < i + 3 then None
        else match ReadEntries(bs[i + 3..], count - 1)
          case None => None
          case Some(rest) => Some([(Chars(bs[..i]), FromLE(bs[i + 1..i + 3]))] + rest)
  }

  /** Reading back as many entries as were written yields each native's name
      and its ID modulo 2^16, as long as every name is plain. */
  lemma {:induction false} ReadNativeEntries(s: Session, names: seq<string>)
    requires forall n :: n in names ==> n in s.functionIds
    requires forall k :: 0 <= k < |names| ==> PlainName(names[k])
    ensures ReadEntries(NativeEntries(s, names), |names|) == Some(Listed(s, names))
  {
    if names != [] {
      var id := s.functionIds[names[0]];
      PlainNameBytes(names[0]);
      FieldWidths();
      FromLEOfLE(id, 2);
      ReadNativeEntries(s, names[1..]);
      ReadEntryStep(Bytes(names[0]), LE(id, 2), NativeEntries(s, names[1..]), |names|);
      assert NativeEntries(s, names) == Bytes(names[0]) + [0] + LE(id, 2) + NativeEntries(s, names[1..]);
      assert Listed(s, names) == [(names[0], id % U16)] + Listed(s, names[1..]);
    }
  }

  /** One entry read back: the name up to its NUL, then the two ID bytes. */
  lemma ReadEntryStep(b: seq<byte>, id: seq<byte>, rest: seq<byte>, count: nat)
    requires forall i :: 0 <= i < |b| ==> b[i] != 0
    requires |id| == 2 && count > 0
    ensures ReadEntries(b + [0] + id + rest, count) ==
      match ReadEntries(rest, count - 1)
      case None => None
      case Some(more) => Some([(Chars(b), FromLE(id))] + more)
  {
    var bs := b + [0] + id + rest;
    assert bs == b + [0] + (id + rest);
    FirstNulAfter(b, id + rest);
    assert bs[..|b|] == b;
    assert bs[|b| + 1..|b| + 3] == id;
    assert bs[|b| + 3..] == rest;
  }

  /** writeNativeData: the 16-bit native count, then each native in
      declaration order. */
  function NativeData(s: Session): (r: seq<byte>)
    requires forall n :: n in s.natives ==> n in s.functionIds
    ensures |r| == 2 + NativeEntriesLength(s.natives)
    ensures FromLE(r[..2]) == |s.natives| % U16
    ensures r[2..] == NativeEntries(s, s.natives)
  {
    var count := LE(|s.natives|, 2);
    FieldWidths();
    FromLEOfLE(|s.natives|, 2);
    assert (count + NativeEntries(s, s.natives))[..2] == count;
    count + NativeEntries(s, s.natives)
  }

  /** While fewer than 2^16 natives are declared and every name is plain,
      the native section reads back entry by entry as each native's name
      followed by its 16-bit function ID. */
  lemma NativeDataReadsBack(s: Session)
    requires forall n :: n in s.natives ==> n in s.functionIds
    requires |s.natives| < U16
    requires forall k :: 0 <= k < |s.natives| ==> PlainName(s.natives[k])
    ensures ReadEntries(NativeData(s)[2..], FromLE(NativeData(s)[..2])) == Some(Listed(s, s.natives))
  {
    var r, n := NativeData(s), |s.natives|;
    DivModUnique(n, U16, 0, n);
    assert FromLE(r[..2]) == n;
    ReadNativeEntries(s, s.natives);
    assert ReadEntries(NativeEntries(s, s.natives), n) == Some(Listed(s, s.natives));
  }

  /** writeGlobalvarData: only the 16-bit number of globals. */
  function GlobalvarData(s: Session): (r: seq<byte>)
    ensures |r| == 2 && FromLE(r) == |s.globalIds| % U16
  {
    FieldWidths();
    FromLEOfLE(|s.globalIds|, 2);
    LE(|s.globalIds|, 2)
  }

  /** The non-native functions in the function table's iteration order. */
  function Defined(s: Session): (r: seq<string>)
    ensures forall n :: n in r <==> n in s.functionIds && n !in s.natives
    ensures Distinct(r)
  {
    var keys := SortedKeys(s.functionIds.Keys);
    SortedDistinct(keys);
    WithoutDistinct(keys, s.natives);
    Without(keys, s.natives)
  }

  predicate HasLayout(s: Session, names: seq<string>) {
    forall n :: n in names ==> n in s.functionIds && n in s.functions
  }

  /** The recorded layout sizes of the given functions. */
  function Sizes(s: Session, names: seq<string>): (r: seq<nat>)
    requires HasLayout(s, names)
    ensures |r| == |names|
    ensures forall i :: 0 <= i < |names| ==> r[i] == s.functions[names[i]].size
  {
    if names == [] then [] else [s.functions[names[0]].size] + Sizes(s, names[1..])
  }

  /** The function IDs of the given functions. */
  function Ids(s: Session, names: seq<string>): (r: seq<nat>)
    requires HasLayout(s, names)
    ensures |r| == |names|
    ensures forall i :: 0 <= i < |names| ==> r[i] == s.functionIds[names[i]]
  {
    if names == [] then [] else [s.functionIds[names[0]] as nat] + Ids(s, names[1..])
  }

  /** A function table entry: a function ID and a file position. */
  datatype Entry = Entry(id: nat, pos: int)

  /** The entries from the given file position on: each entry's position
      advances by the function's layout size. The u32 position wraps;
      writing the 4-byte field truncates the same way. */
  function Entries(ids: seq<nat>, sizes: seq<nat>, filepos: int): (r: seq<Entry>)
    requires |ids| == |sizes|
    ensures |r| == |ids|
  {
    if ids == [] then []
    else [Entry(ids[0], filepos)] + Entries(ids[1..], sizes[1..], filepos + sizes[0])
  }

  lemma SumPrefix(xs: seq<nat>, k: nat)
    requires 0 < k <= |xs|
    ensures Sum(xs[..k]) == xs[0] + Sum(xs[1..][..k - 1])
  {
    assert xs[..k][1..] == xs[1..][..k - 1];
  }

  /** Entry k holds ID k and the starting position plus the sizes of the
      entries before it. */
  lemma {:induction false} EntryAt(ids: seq<nat>, sizes: seq<nat>, filepos: int, k: nat)
    requires |ids| == |sizes| && k < |ids|
    ensures Entries(ids, sizes, filepos)[k] == Entry(ids[k], filepos + Sum(sizes[..k]))
    decreases k
  {
    if k > 0 {
      EntryAt(ids[1..], sizes[1..], filepos + sizes[0], k - 1);
      SumPrefix(sizes, k);
    } else {
      assert sizes[..0] == [];
    }
  }

  /** An entry as written: 2-byte ID, 4-byte position. */
  function EncodeEntry(e: Entry): (r: seq<byte>)
    ensures |r| == 6
  {
    LE(e.id, 2) + LE(e.pos, 4)
  }

  function EncodeEntries(es: seq<Entry>): (r: seq<byte>)
    ensures |r| == 6 * |es|
  {
    if es == [] then [] else EncodeEntry(es[0]) + EncodeEntries(es[1..])
  }

  lemma {:induction false} EncodedEntryAt(es: seq<Entry>, k: nat)
    requires k < |es|
    ensures EncodeEntries(es)[6 * k..6 * k + 6] == EncodeEntry(es[k])
    decreases k
  {
    var head := EncodeEntry(es[0]);
    var rest := EncodeEntries(es[1..]);
    assert EncodeEntries(es) == head + rest;
    if k > 0 {
      var i := 6 * (k - 1);
      assert 6 * k == i + 6;
      EncodedEntryAt(es[1..], k - 1);
      assert es[1..][k - 1] == es[k];
      SliceAfter(head, rest, i + 6, i + 12);
    } else {
      assert (head + rest)[..6] == head;
    }
  }

  /** Reading an entry back. */
  lemma DecodeEntry(e: Entry)
    ensures FromLE(EncodeEntry(e)[..2]) == e.id % U16
    ensures FromLE(EncodeEntry(e)[2..]) == e.pos % U32
  {
    FieldWidths();
    FromLEOfLE(e.id, 2);
    FromLEOfLE(e.pos, 4);
    assert EncodeEntry(e)[..2] == LE(e.id, 2);
    assert EncodeEntry(e)[2..] == LE(e.pos, 4);
  }

  /** writeFunctionData: the 16-bit function count, then one entry per
      non-native function. The position starts past the table, computed from
      the 16-bit count minus the number of natives. */
  function FunctionTable(s: Session, names: seq<string>, filepos: int): (r: seq<byte>)
    requires HasLayout(s, names)
    requires forall n :: n in s.natives ==> n in s.functionIds
    ensures |r| == 2 + 6 * |names|
  {
    var functionc := |s.functionIds| % U16;
    LE(|s.functionIds|, 2)
    + EncodeEntries(Entries(Ids(s, names), Sizes(s, names), filepos + 2 + (functionc - |s.natives|) * 6))
  }

  /** The emitted bodies of the given functions, in order, with the session
      threaded through: names created by load or loadwide in one body are
      still known in the next. */
  datatype Bodies = Bodies(parts: seq<seq<byte>>, session: Session)

  function WriteFunctions(s: Session, names: seq<string>, toks: seq<string>, fc: FloatConv): (r: Result<Bodies>)
    requires HasLayout(s, names)
    requires forall n :: n in s.functions ==> s.functions[n].inpos <= |toks|
    ensures r.Ok? ==> |r.value.parts| == |names|
    ensures r.Ok? ==> r.value.session.functionIds == s.functionIds && r.value.session.functions == s.functions
    ensures r.Ok? && Valid(s) ==> Valid(r.value.session)
    decreases |names|
  {
    if names == [] then Ok(Bodies([], s))
    else
      var f := s.functions[names[0]];
      var body :- EmitFrom(s, f.labels, toks, f.inpos, fc);
      var rest :- WriteFunctions(body.session, names[1..], toks, fc);
      Ok(Bodies([body.bytes] + rest.parts, rest.session))
  }

  /** The sections of an a10 container. */
  datatype Image = Image(header: seq<byte>, nativeData: seq<byte>, globalData: seq<byte>,
                         functionData: seq<byte>, bodies: seq<seq<byte>>)
  {
    function Prefix(): seq<byte> {
      header + nativeData + globalData + functionData
    }

    function Bytes(): seq<byte> {
      Prefix() + Flatten(bodies)
    }
  }

  /** What the translation pass needs of a session and its list of
      non-native functions: valid tables, natives among the declared
      functions, a layout record for every listed function, and as many
      listed functions as declared functions that are not natives. The
      function count fits its 16-bit field. */
  predicate Tabled(s: Session, names: seq<string>) {
    && |s.functionIds| < U16
    && (forall n :: n in s.natives ==> n in s.functionIds)
    && HasLayout(s, names)
    && |names| == |s.functionIds| - |s.natives|
  }

  /** The function table's list meets that shape once the label pass is done. */
  lemma WfTabled(s: Session, toks: seq<string>)
    requires Wf(s, toks)
    ensures Tabled(s, Defined(s))
  {
    var keys := SortedKeys(s.functionIds.Keys);
    SortedDistinct(keys);
    WithoutCount(keys, s.natives);
    FunctionCountFits(s);
  }

  /** The container around the given bodies. The file position the function
      table starts from is the number of bytes written before it. */
  function ImageOf(s: Session, names: seq<string>, parts: seq<seq<byte>>): Image
    requires Tabled(s, names)
  {
    var filepos := |Header| + |NativeData(s)| + 2;
    Image(Header, NativeData(s), GlobalvarData(s), FunctionTable(s, names, filepos), parts)
  }

  /** translationPass: the sections in order, the bodies emitted in the
      function table's order. */
  function TranslationPass(s: Session, toks: seq<string>, fc: FloatConv): (r: Result<Image>)
    requires Wf(s, toks)
    ensures Tabled(s, Defined(s))
    ensures r.Ok? <==> WriteFunctions(s, Defined(s), toks, fc).Ok?
    ensures r.Ok? ==> r.value == ImageOf(s, Defined(s), WriteFunctions(s, Defined(s), toks, fc).value.parts)
    ensures r.Ok? ==> Framed(s, Defined(s), r.value)
  {
    WfTabled(s, toks);
    var bodies :- WriteFunctions(s, Defined(s), toks, fc);
    TableStartIsBodyStart(s, Defined(s), bodies.parts);
    Ok(ImageOf(s, Defined(s), bodies.parts))
  }

  /** A whole a10 job on a token stream: the label pass from a fresh
      translator, then the translation pass on the session it leaves. A
      label-pass error ends the job unchanged; a finished image has the
      fixed header, the natives and globals that pass declared, and a
      function table whose positions start at the first body. */
  function Assemble(toks: seq<string>, fc: FloatConv): (r: Result<Image>)
    ensures LabelPass(Initial, toks, 0).Err? ==> r == Err(LabelPass(Initial, toks, 0).error)
    ensures r.Ok? ==>
      && LabelPass(Initial, toks, 0).Ok?
      && var s := LabelPass(Initial, toks, 0).value;
      && Wf(s, toks)
      && r.value.header == Header
      && r.value.nativeData == NativeData(s)
      && r.value.globalData == GlobalvarData(s)
      && Framed(s, Defined(s), r.value)
  {
    InitialWf(toks);
    var s :- LabelPass(Initial, toks, 0);
    TranslationPass(s, toks, fc)
  }

  /** An image framed around the function table of the given functions:
      the table's positions start counting at the first body. */
  predicate Framed(s: Session, names: seq<string>, im: Image) {
    && Tabled(s, names)
    && |im.bodies| == |names|
    && im.functionData == LE(|s.functionIds|, 2) + EncodeEntries(Entries(Ids(s, names), Sizes(s, names), |im.Prefix()|))
  }

  /** The position the function table starts counting from is the number
      of bytes in front of the bodies: the header, the native data, the
      global count and the table itself. */
  lemma {:induction false} TableStartIsBodyStart(s: Session, names: seq<string>, parts: seq<seq<byte>>)
    requires Tabled(s, names) && |parts| == |names|
    ensures Framed(s, names, ImageOf(s, names, parts))
  {
    TableAfterGlobals(s, names, ImageOf(s, names, parts), |Header| + |NativeData(s)| + 2);
  }

  lemma {:induction false} TableAfterGlobals(s: Session, names: seq<string>, im: Image, filepos: int)
    requires Tabled(s, names) && |im.bodies| == |names| && |im.globalData| == 2
    requires filepos == |im.header| + |im.nativeData| + 2
    requires im.functionData == FunctionTable(s, names, filepos)
    ensures Framed(s, names, im)
  {
    assert |im.Prefix()| == filepos + 2 + 6 * |names|;
    FunctionTableShape(s, names, filepos, |im.Prefix()|);
  }

  /** With the function count fitting 16 bits, the table's positions start
      right after its own entries. */
  lemma {:induction false} FunctionTableShape(s: Session, names: seq<string>, filepos: int, first: int)
    requires Tabled(s, names) && first == filepos + 2 + 6 * |names|
    ensures FunctionTable(s, names, filepos)
         == LE(|s.functionIds|, 2) + EncodeEntries(Entries(Ids(s, names), Sizes(s, names), first))
  {
    var functionc := |s.functionIds| % U16;
    DivModUnique(|s.functionIds|, U16, 0, |s.functionIds|);
    assert filepos + 2 + (functionc - |s.natives|) * 6 == first;
    assert Entries(Ids(s, names), Sizes(s, names), filepos + 2 + (functionc - |s.natives|) * 6)
        == Entries(Ids(s, names), Sizes(s, names), first);
  }

  /** Entry k of a function table (behind its two-byte count) is e. */
  predicate EntryInSlot(table: seq<byte>, k: nat, e: Entry) {
    2 + 6 * k + 6 <= |table| && table[2 + 6 * k..2 + 6 * k + 6] == EncodeEntry(e)
  }

  /** Body k does start there whenever every earlier body was emitted at its
      laid-out size. */
  lemma {:induction false} FramedBody(s: Session, names: seq<string>, im: Image, k: nat)
    requires Framed(s, names, im) && k < |names|
    requires forall j :: 0 <= j < k ==> |im.bodies[j]| == s.functions[names[j]].size
    ensures Holds(im.Bytes(), |im.Prefix()| + Sum(Sizes(s, names)[..k]), im.bodies[k])
  {
    assert Lengths(im.bodies)[..k] == Sizes(s, names)[..k];
    BodyAt(im, k);
  }

  /** The first body written, then the rest from the session it leaves. */
  lemma WriteFunctionsStep(s: Session, names: seq<string>, toks: seq<string>, fc: FloatConv, written: Bodies)
      returns (body: Emitted, rest: Bodies)
    requires HasLayout(s, names) && names != []
    requires forall n :: n in s.functions ==> s.functions[n].inpos <= |toks|
    requires WriteFunctions(s, names, toks, fc) == Ok(written)
    ensures EmitFrom(s, s.functions[names[0]].labels, toks, s.functions[names[0]].inpos, fc) == Ok(body)
    ensures body.session.functionIds == s.functionIds && body.session.functions == s.functions
    ensures WriteFunctions(body.session, names[1..], toks, fc) == Ok(rest)
    ensures written.parts == [body.bytes] + rest.parts
  {
    var f := s.functions[names[0]];
    body := EmitFrom(s, f.labels, toks, f.inpos, fc).value;
    rest := WriteFunctions(body.session, names[1..], toks, fc).value;
  }

  /** Body k of the written bodies is the emission of function k's body
      from the session the bodies before it left behind. */
  lemma {:induction false} WrittenBody(s: Session, names: seq<string>, toks: seq<string>, fc: FloatConv,
                                       written: Bodies, k: nat)
      returns (sk: Session, e: Emitted)
    requires HasLayout(s, names)
    requires forall n :: n in s.functions ==> s.functions[n].inpos <= |toks|
    requires WriteFunctions(s, names, toks, fc) == Ok(written) && k < |names|
    ensures sk.functions == s.functions
    ensures EmitFrom(sk, s.functions[names[k]].labels, toks, s.functions[names[k]].inpos, fc) == Ok(e)
    ensures e.bytes == written.parts[k]
    decreases k
  {
    var body, rest := WriteFunctionsStep(s, names, toks, fc, written);
    if k == 0 {
      sk, e := s, body;
    } else {
      sk, e := WrittenBody(body.session, names[1..], toks, fc, rest, k - 1);
    }
  }

  /** The layout pass's overcount for the body of each given function. */
  function Overcounts(s: Session, toks: seq<string>, names: seq<string>): (r: seq<nat>)
    requires HasLayout(s, names)
    requires forall n :: n in s.functions ==> s.functions[n].inpos <= |toks|
    ensures |r| == |names|
    ensures forall i :: 0 <= i < |names| ==> r[i] == Overcount(toks, s.functions[names[i]].inpos)
  {
    if names == [] then [] else [Overcount(toks, s.functions[names[0]].inpos)] + Overcounts(s, toks, names[1..])
  }

  /** A written body whose walk resyncs is its recorded size less the
      layout pass's overcount. */
  lemma WrittenBodyLength(s: Session, names: seq<string>, toks: seq<string>, fc: FloatConv, written: Bodies, k: nat)
    requires AllRecorded(s, toks) && HasLayout(s, names)
    requires WriteFunctions(s, names, toks, fc) == Ok(written) && k < |names|
    requires Resyncs(toks, s.functions[names[k]].inpos)
    ensures |written.parts[k]| + Overcount(toks, s.functions[names[k]].inpos) == s.functions[names[k]].size
  {
    var sk, e := WrittenBody(s, names, toks, fc, written, k);
    var f := s.functions[names[k]];
    assert Recorded(toks, f);
    FunctionResyncs(sk, toks, f.inpos, fc);
  }

  /** The bodies before k, when each resyncs, are together their laid-out
      sizes less their overcounts. */
  lemma WrittenPrefixLength(s: Session, names: seq<string>, toks: seq<string>, fc: FloatConv, written: Bodies, k: nat)
    requires AllRecorded(s, toks) && HasLayout(s, names)
    requires WriteFunctions(s, names, toks, fc) == Ok(written) && k <= |names|
    requires forall j :: 0 <= j < k ==> Resyncs(toks, s.functions[names[j]].inpos)
    ensures Sum(Lengths(written.parts)[..k]) + Sum(Overcounts(s, toks, names)[..k]) == Sum(Sizes(s, names)[..k])
  {
    forall j | 0 <= j < k
      ensures Lengths(written.parts)[j] + Overcounts(s, toks, names)[j] == Sizes(s, names)[j]
    {
      WrittenBodyLength(s, names, toks, fc, written, j);
    }
    SumPointwise(Lengths(written.parts), Overcounts(s, toks, names), Sizes(s, names), k);
  }

  /** Where body k of a finished image lies. Its function table entry e
      records function k's ID and the prefix length plus the laid-out sizes
      of the bodies before it. When each of those bodies resyncs, body k
      really starts earlier, at e's position less the layout pass's
      overcount for them: one byte per call, two per if and one per ifn. */
  lemma BodiesStart(s: Session, names: seq<string>, toks: seq<string>, fc: FloatConv, im: Image, written: Bodies, k: nat)
      returns (e: Entry, at: nat)
    requires AllRecorded(s, toks) && Framed(s, names, im) && k < |names|
    requires WriteFunctions(s, names, toks, fc) == Ok(written) && im.bodies == written.parts
    requires forall j :: 0 <= j < k ==> Resyncs(toks, s.functions[names[j]].inpos)
    ensures e.id == s.functionIds[names[k]]
    ensures e.pos == |im.Prefix()| + Sum(Sizes(s, names)[..k])
    ensures EntryInSlot(im.functionData, k, e)
    ensures at + Sum(Overcounts(s, toks, names)[..k]) == e.pos
    ensures Holds(im.Bytes(), at, im.bodies[k])
  {
    e := FramedEntry(s, names, im, k);
    WrittenPrefixLength(s, names, toks, fc, written, k);
    at := |im.Prefix()| + Sum(Lengths(im.bodies)[..k]);
    BodyAt(im, k);
  }

  /** The call instructions along the layout walk of each given body. */
  function CallCounts(s: Session, toks: seq<string>, names: seq<string>): (r: seq<nat>)
    requires HasLayout(s, names)
    requires forall n :: n in s.functions ==> s.functions[n].inpos <= |toks|
    ensures |r| == |names|
    ensures forall i :: 0 <= i < |names| ==> r[i] == Calls(toks, s.functions[names[i]].inpos)
  {
    if names == [] then [] else [Calls(toks, s.functions[names[0]].inpos)] + CallCounts(s, toks, names[1..])
  }

  /** In the image of a translation pass, when no body before k holds an if
      or ifn, body k starts at its table entry's position less one byte for
      every call instruction in those bodies. */
  lemma CallBodiesStart(s: Session, toks: seq<string>, fc: FloatConv, im: Image, k: nat) returns (e: Entry, at: nat)
    requires Wf(s, toks) && TranslationPass(s, toks, fc) == Ok(im) && k < |Defined(s)|
    requires forall j :: 0 <= j < k ==> NoCondBranch(toks, s.functions[Defined(s)[j]].inpos)
    ensures e.id == s.functionIds[Defined(s)[k]]
    ensures e.pos == |im.Prefix()| + Sum(Sizes(s, Defined(s))[..k])
    ensures EntryInSlot(im.functionData, k, e)
    ensures at + Sum(CallCounts(s, toks, Defined(s))[..k]) == e.pos
    ensures Holds(im.Bytes(), at, im.bodies[k])
  {
    var names := Defined(s);
    var written := WriteFunctions(s, names, toks, fc).value;
    CallsResync(s, toks, names, k);
    e, at := BodiesStart(s, names, toks, fc, im, written, k);
  }

  /** Bodies without if or ifn resync, each overcounted by its calls. */
  lemma CallsResync(s: Session, toks: seq<string>, names: seq<string>, k: nat)
    requires HasLayout(s, names) && k <= |names|
    requires forall n :: n in s.functions ==> s.functions[n].inpos <= |toks|
    requires forall j :: 0 <= j < k ==> NoCondBranch(toks, s.functions[names[j]].inpos)
    ensures forall j :: 0 <= j < k ==> Resyncs(toks, s.functions[names[j]].inpos)
    ensures Overcounts(s, toks, names)[..k] == CallCounts(s, toks, names)[..k]
  {
    forall j | 0 <= j < k
      ensures Resyncs(toks, s.functions[names[j]].inpos)
      ensures Overcounts(s, toks, names)[j] == CallCounts(s, toks, names)[j]
    {
      NoCondBranchResyncs(toks, s.functions[names[j]].inpos);
    }
  }

  /** Entry k of a framed image's function table: function k's ID and a
      position past the prefix by the laid-out sizes of the bodies before
      it. */
  lemma FramedEntry(s: Session, names: seq<string>, im: Image, k: nat) returns (e: Entry)
    requires Framed(s, names, im) && k < |names|
    ensures e.id == s.functionIds[names[k]]
    ensures e.pos == |im.Prefix()| + Sum(Sizes(s, names)[..k])
    ensures EntryInSlot(im.functionData, k, e)
  {
    var ids, sizes, first := Ids(s, names), Sizes(s, names), |im.Prefix()|;
    e := Entry(ids[k], first + Sum(sizes[..k]));
    TableEntryBytes(im.functionData, LE(|s.functionIds|, 2), ids, sizes, first, k);
  }

  lemma {:induction false} TableEntryBytes(table: seq<byte>, count: seq<byte>, ids: seq<nat>, sizes: seq<nat>,
                                           first: int, k: nat)
    requires |count| == 2 && |ids| == |sizes| && k < |ids|
    requires table == count + EncodeEntries(Entries(ids, sizes, first))
    ensures EntryInSlot(table, k, Entry(ids[k], first + Sum(sizes[..k])))
  {
    var es := Entries(ids, sizes, first);
    EntryAt(ids, sizes, first, k);
    EncodedEntryAt(es, k);
    SliceAfter(count, EncodeEntries(es), 2 + 6 * k, 2 + 6 * k + 6);
  }

  /** Body k of an image starts after the prefix and the bodies before it. */
  lemma {:induction false} BodyAt(im: Image, k: nat)
    requires k < |im.bodies|
    ensures Holds(im.Bytes(), |im.Prefix()| + Sum(Lengths(im.bodies)[..k]), im.bodies[k])
  {
    FlattenPart(im.bodies, k);
    var off := Sum(Lengths(im.bodies)[..k]);
    SliceAfter(im.Prefix(), Flatten(im.bodies), |im.Prefix()| + off, |im.Prefix()| + off + |im.bodies[k]|);
  }
}
