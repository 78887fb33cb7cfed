/** The state of an a10 assembly job: three name-to-ID tables with their
    16-bit counters, the per-function layout records, and the list of native
    functions. One session value lives through both passes. */
module A10Session {
  import opened Base

  type u16 = x: nat | x < 0x1_0000

  /** What the layout pass records for a defined function: where its body
      starts in the token stream, its label map and its encoded size. */
  datatype FunctionData = FunctionData(inpos: nat, labels: map<string, nat>, size: nat)

  /** The three ID spaces. */
  datatype Space = Functions | Globals | Locals

  datatype Session = Session(
    functionCounter: u16,
    globalCounter: u16,
    localCounter: u16,
    functionIds: map<string, u16>,
    globalIds: map<string, u16>,
    localIds: map<string, u16>,
    functions: map<string, FunctionData>,
    natives: seq<string>)
  {
    function Table(space: Space): map<string, u16> {
      match space
      case Functions => functionIds
      case Globals => globalIds
      case Locals => localIds
    }

    function WithTable(space: Space, m: map<string, u16>): (s': Session)
      ensures s'.Table(space) == m
      ensures forall other :: other != space ==> s'.Table(other) == Table(other)
    {
      match space
      case Functions => this.(functionIds := m)
      case Globals => this.(globalIds := m)
      case Locals => this.(localIds := m)
    }
  }

  /** A fresh session: every counter at zero, every table empty. */
  const Initial := Session(0, 0, 0, map[], map[], map[], map[], [])

  predicate IsNative(s: Session, name: string) {
    name in s.natives
  }

  datatype Issued = Issued(id: u16, counter: u16)

  /** nextFunctionID, nextGlobalvarID and nextLocalvarID: increment a 16-bit
      counter, abort when it wraps to zero, and hand out the previous value.
      So only the IDs 0..65534 are ever issued. */
  function NextId(counter: u16): (r: Result<Issued>)
    ensures r.Ok? <==> counter < 0xFFFF
    ensures r.Ok? ==> r.value.id == counter && r.value.counter == counter + 1
    ensures r.Ok? ==> r.value.id <= 65534
  {
    var c := (counter + 1) % U16;
    if c == 0 then Err(IdOverflow) else Ok(Issued(c - 1, c))
  }

  /** Every ID in a table lies below the function counter. */
  predicate Below(m: map<string, u16>, bound: nat) {
    forall x :: x in m ==> m[x] < bound
  }

  predicate Injective(m: map<string, u16>) {
    forall x, y :: x in m && y in m && x != y ==> m[x] != m[y]
  }

  predicate Apart(m1: map<string, u16>, m2: map<string, u16>) {
    forall x, y :: x in m1 && y in m2 ==> m1[x] != m2[y]
  }

  /** The invariant the allocators keep: since all three tables draw from the
      function counter, every ID issued is below it and no two entries of any
      tables share an ID. */
  predicate Valid(s: Session) {
    && Below(s.functionIds, s.functionCounter)
    && Below(s.globalIds, s.functionCounter)
    && Below(s.localIds, s.functionCounter)
    && Injective(s.functionIds) && Injective(s.globalIds) && Injective(s.localIds)
    && Apart(s.functionIds, s.globalIds)
    && Apart(s.functionIds, s.localIds)
    && Apart(s.globalIds, s.localIds)
  }

  lemma InitialValid()
    ensures Valid(Initial)
  {
  }

  lemma ValidBelowAll(s: Session)
    ensures Valid(s) ==> forall sp, x :: x in s.Table(sp) ==> s.Table(sp)[x] < s.functionCounter
  {
    if Valid(s) {
      forall sp, x | x in s.Table(sp)
        ensures s.Table(sp)[x] < s.functionCounter
      {
        match sp
        case Functions =>
        case Globals =>
        case Locals =>
      }
    }
  }

  /** Giving a fresh name the counter's value keeps a table injective and
      below the incremented counter. */
  lemma {:induction false} InsertFresh(m: map<string, u16>, name: string, c: u16)
    requires Below(m, c) && Injective(m) && name !in m
    ensures Below(m[name := c], c + 1) && Injective(m[name := c])
  {
  }

  lemma {:induction false} ApartInsert(m: map<string, u16>, other: map<string, u16>, name: string, c: u16)
    requires Apart(m, other) && Below(other, c)
    ensures Apart(m[name := c], other) && Apart(other, m[name := c])
  {
  }

  lemma {:induction false} BelowRaise(m: map<string, u16>, c: nat)
    requires Below(m, c)
    ensures Below(m, c + 1)
  {
  }

  /** Issuing the counter's value to a fresh name in any table, and moving
      the counter on, keeps the session valid. */
  lemma {:induction false} InsertFreshValid(s: Session, space: Space, name: string)
    requires Valid(s) && name !in s.Table(space) && s.functionCounter < 0xFFFF
    ensures Valid(s.WithTable(space, s.Table(space)[name := s.functionCounter]).(functionCounter := s.functionCounter + 1))
  {
    var c := s.functionCounter;
    var (f, g, l) := (s.functionIds, s.globalIds, s.localIds);
    match space
    case Functions =>
      InsertFresh(f, name, c);
      ApartInsert(f, g, name, c);
      ApartInsert(f, l, name, c);
      BelowRaise(g, c);
      BelowRaise(l, c);
    case Globals =>
      InsertFresh(g, name, c);
      ApartInsert(g, f, name, c);
      ApartInsert(g, l, name, c);
      BelowRaise(f, c);
      BelowRaise(l, c);
    case Locals =>
      InsertFresh(l, name, c);
      ApartInsert(l, f, name, c);
      ApartInsert(l, g, name, c);
      BelowRaise(f, c);
      BelowRaise(g, c);
  }

  /** Pigeonhole: an injective table into [0, bound) has at most bound
      entries. */
  lemma {:induction false} InjectiveBound(m: map<string, u16>, bound: nat)
    requires Injective(m) && Below(m, bound)
    ensures |m| <= bound
    decreases bound
  {
    if bound == 0 {
      assert m.Keys == {};
    } else if k :| k in m && m[k] == bound - 1 {
      var rest := m - {k};
      assert Below(rest, bound - 1);
      InjectiveBound(rest, bound - 1);
      assert m.Keys == rest.Keys + {k};
    } else {
      InjectiveBound(m, bound - 1);
    }
  }

  /** In a valid session the function table fits the 16-bit count written
      for it. */
  lemma FunctionCountFits(s: Session)
    requires Valid(s)
    ensures |s.functionIds| < U16
  {
    InjectiveBound(s.functionIds, s.functionCounter);
  }

  datatype Lookup = Lookup(id: u16, session: Session)

  /** functionIDFor, globalvarIDFor and localvarIDFor. A present name yields
      its stored ID and changes nothing. An absent name aborts unless create
      is set, in which case it receives the next ID of the FUNCTION counter,
      whichever table it goes into; the global and local counters never
      move. */
  function IdFor(s: Session, space: Space, name: string, create: bool): (r: Result<Lookup>)
    ensures name in s.Table(space) ==> r == Ok(Lookup(s.Table(space)[name], s))
    ensures name !in s.Table(space) && !create ==> r == Err(NotFound(name))
    ensures name !in s.Table(space) && create ==> (r.Ok? <==> s.functionCounter < 0xFFFF)
    ensures name !in s.Table(space) && r.Ok? ==>
      && r.value.id == s.functionCounter
      && r.value.session.Table(space) == s.Table(space)[name := r.value.id]
      && r.value.session.functionCounter == s.functionCounter + 1
    ensures r.Ok? ==> r.value.session.Table(space)[name] == r.value.id
    ensures r.Ok? ==> forall other :: other != space ==> r.value.session.Table(other) == s.Table(other)
    ensures r.Ok? ==> r.value.session.globalCounter == s.globalCounter
    ensures r.Ok? ==> r.value.session.localCounter == s.localCounter
    ensures r.Ok? ==> r.value.session.functions == s.functions && r.value.session.natives == s.natives
    ensures r.Ok? && Valid(s) ==> Valid(r.value.session)
    ensures r.Ok? && Valid(s) && name !in s.Table(space) ==>
      forall sp, x :: x in s.Table(sp) ==> s.Table(sp)[x] < r.value.id
  {
    var table := s.Table(space);
    if name in table then Ok(Lookup(table[name], s))
    else if !create then Err(NotFound(name))
    else
      var issued :- NextId(s.functionCounter);
      var s' := s.WithTable(space, table[name := issued.id]).(functionCounter := issued.counter);
      ValidBelowAll(s);
      if Valid(s) then InsertFreshValid(s, space, name); Ok(Lookup(issued.id, s'))
      else Ok(Lookup(issued.id, s'))
  }

  /** aspelFunction's reset before laying out a body: the local counter goes
      back to zero and the local table is emptied. */
  function ClearLocals(s: Session): (s': Session)
    ensures s'.localIds == map[] && s'.localCounter == 0
    ensures s'.functionIds == s.functionIds && s'.globalIds == s.globalIds
    ensures s'.functionCounter == s.functionCounter
    ensures Valid(s) ==> Valid(s')
  {
    s.(localCounter := 0, localIds := map[])
  }
}
