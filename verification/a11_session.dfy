/** The state of an a11 assembly job. Functions and natives get 32-bit IDs
    from counters that abort on wrap-around; globals and locals get byte
    offsets ("mpos") in two flat memory regions, reserved by size. */
module A11Session {
  import opened Base

  type u32 = x: nat | x < 0x1_0000_0000

  datatype Issued = Issued(id: u32, counter: u32)

  /** nextFunctionID: increment a 32-bit counter, abort when it wraps to
      zero, and hand out the previous value. The native counter is advanced
      the same way. */
  function NextId(counter: u32): (r: Result<Issued>)
    ensures r.Ok? <==> counter < 0xFFFF_FFFF
    ensures r.Ok? ==> r.value.id == counter && r.value.counter == counter + 1
  {
    var c := (counter + 1) % U32;
    if c == 0 then Err(IdOverflow) else Ok(Issued(c - 1, c))
  }

  /** nextGVarMPos and nextLVarMPos: add size to a 32-bit counter, abort if
      the sum wrapped below the old value, and hand out the new value minus
      size. */
  function NextMPos(counter: u32, size: u32): (r: Result<Issued>)
    ensures r.Ok? <==> counter + size < U32
    ensures r.Ok? ==> r.value.id == counter && r.value.counter == counter + size
  {
    var c := (counter + size) % U32;
    if c < counter then Err(MPosOverflow) else Ok(Issued((c - size) % U32, c))
  }

  // ---------------------------------------------------------------- regions

  /** One reservation in a region: a name and the number of bytes it was
      given. */
  datatype Reservation = Reservation(name: string, size: u32)

  /** A memory region: the next free offset, the offset of every name, and
      the reservations in the order they were made. The source keeps only the
      first two; the third records what they were built from. */
  datatype Region = Region(counter: u32, mpos: map<string, u32>, reserved: seq<Reservation>)

  const EmptyRegion := Region(0, map[], [])

  /** The bytes taken by a run of reservations. */
  function Total(rs: seq<Reservation>): nat {
    if rs == [] then 0 else Total(rs[..|rs| - 1]) + rs[|rs| - 1].size
  }

  function Names(rs: seq<Reservation>): set<string> {
    set i | 0 <= i < |rs| :: rs[i].name
  }

  /** The region's shape: each name is reserved once, the names reserved are
      exactly the names with an offset, each name's offset is the bytes
      reserved before it, and the counter is the bytes reserved in all. */
  predicate RegionValid(g: Region) {
    && (forall i, j :: 0 <= i < j < |g.reserved| ==> g.reserved[i].name != g.reserved[j].name)
    && g.mpos.Keys == Names(g.reserved)
    && (forall i :: 0 <= i < |g.reserved| ==>
          g.reserved[i].name in g.mpos && g.mpos[g.reserved[i].name] == Total(g.reserved[..i]))
    && g.counter == Total(g.reserved)
  }

  lemma EmptyRegionValid()
    ensures RegionValid(EmptyRegion)
  {
  }

  /** Reserving size bytes for a new name at the counter keeps the shape. */
  lemma {:induction false} ReserveValid(g: Region, name: string, size: u32)
    requires RegionValid(g) && name !in g.mpos && g.counter + size < U32
    ensures RegionValid(Region(g.counter + size, g.mpos[name := g.counter], g.reserved + [Reservation(name, size)]))
  {
    var rs := g.reserved + [Reservation(name, size)];
    var m := g.mpos[name := g.counter];
    NamesAppend(g.reserved, Reservation(name, size));
    assert m.Keys == g.mpos.Keys + {name};
    ReserveDistinct(g, name, size);
    ReserveOffsets(g, name, size);
    assert rs[..|rs| - 1] == g.reserved;
    assert Total(rs) == g.counter + size;
    var g' := Region(g.counter + size, m, rs);
    assert g'.reserved == rs && g'.mpos == m;
  }

  lemma {:induction false} ReserveDistinct(g: Region, name: string, size: u32)
    requires RegionValid(g) && name !in g.mpos
    ensures forall i, j :: 0 <= i < j < |g.reserved| + 1 ==>
      (g.reserved + [Reservation(name, size)])[i].name != (g.reserved + [Reservation(name, size)])[j].name
  {
    var rs := g.reserved + [Reservation(name, size)];
    forall i, j | 0 <= i < j < |rs|
      ensures rs[i].name != rs[j].name
    {
      assert rs[i] == g.reserved[i];
      if j < |g.reserved| {
        assert rs[j] == g.reserved[j];
      } else {
        assert g.reserved[i].name in Names(g.reserved);
      }
    }
  }

  lemma {:induction false} ReserveOffsets(g: Region, name: string, size: u32)
    requires RegionValid(g) && name !in g.mpos
    ensures forall i :: 0 <= i < |g.reserved| + 1 ==>
      && (g.reserved + [Reservation(name, size)])[i].name in g.mpos[name := g.counter]
      && g.mpos[name := g.counter][(g.reserved + [Reservation(name, size)])[i].name]
         == Total((g.reserved + [Reservation(name, size)])[..i])
  {
    var rs := g.reserved + [Reservation(name, size)];
    var m := g.mpos[name := g.counter];
    forall i | 0 <= i < |rs|
      ensures rs[i].name in m && m[rs[i].name] == Total(rs[..i])
    {
      if i < |g.reserved| {
        assert rs[i] == g.reserved[i];
        assert rs[..i] == g.reserved[..i];
        assert g.reserved[i].name in Names(g.reserved);
      } else {
        assert rs[..i] == g.reserved;
      }
    }
  }

  lemma {:induction false} NamesAppend(rs: seq<Reservation>, r: Reservation)
    ensures Names(rs + [r]) == Names(rs) + {r.name}
  {
    var rs' := rs + [r];
    forall x | x in Names(rs) ensures x in Names(rs') {
      var i :| 0 <= i < |rs| && rs[i].name == x;
      assert rs'[i].name == x;
    }
    assert rs'[|rs|].name == r.name;
  }

  /** Prefix totals grow with the prefix. */
  lemma {:induction false} TotalMonotone(rs: seq<Reservation>, a: nat, b: nat)
    requires a <= b <= |rs|
    ensures Total(rs[..a]) <= Total(rs[..b])
    decreases b
  {
    if a < b {
      assert rs[..b][..b - 1] == rs[..b - 1];
      TotalMonotone(rs, a, b - 1);
    }
  }

  /** Reservation i ends where the bytes reserved through i end. */
  lemma {:induction false} TotalStep(rs: seq<Reservation>, i: nat)
    requires i < |rs|
    ensures Total(rs[..i + 1]) == Total(rs[..i]) + rs[i].size
  {
    assert rs[..i + 1][..i] == rs[..i];
  }

  /** The ranges [mpos, mpos + size) of two names reserved one after the
      other do not overlap: the earlier one ends before the later begins. */
  lemma {:induction false} RangesDisjoint(g: Region, i: nat, j: nat)
    requires RegionValid(g) && i < j < |g.reserved|
    ensures g.mpos[g.reserved[i].name] + g.reserved[i].size <= g.mpos[g.reserved[j].name]
  {
    TotalStep(g.reserved, i);
    TotalMonotone(g.reserved, i + 1, j);
  }

  /** Every reserved range lies below the counter. */
  lemma {:induction false} RangeWithin(g: Region, i: nat)
    requires RegionValid(g) && i < |g.reserved|
    ensures g.mpos[g.reserved[i].name] + g.reserved[i].size <= g.counter
  {
    TotalStep(g.reserved, i);
    TotalMonotone(g.reserved, i + 1, |g.reserved|);
    assert g.reserved[..|g.reserved|] == g.reserved;
  }

  datatype Placed = Placed(mpos: u32, region: Region)

  /** gvarMPosFor and lvarMPosFor. A present name yields its first-assigned
      offset and changes nothing, whatever size is asked for now. An absent
      name aborts unless create is set, in which case it is given the
      counter and the counter moves on by size. */
  function MPosFor(g: Region, name: string, create: bool, size: u32): (r: Result<Placed>)
    ensures name in g.mpos ==> r == Ok(Placed(g.mpos[name], g))
    ensures name !in g.mpos && !create ==> r == Err(NotFound(name))
    ensures name !in g.mpos && create ==> (r.Ok? <==> g.counter + size < U32)
    ensures name !in g.mpos && r.Ok? ==>
      && r.value.mpos == g.counter
      && r.value.region.counter == g.counter + size
      && r.value.region.mpos == g.mpos[name := g.counter]
      && r.value.region.reserved == g.reserved + [Reservation(name, size)]
    ensures r.Ok? ==> name in r.value.region.mpos && r.value.region.mpos[name] == r.value.mpos
    ensures r.Ok? ==> g.mpos.Keys <= r.value.region.mpos.Keys
    ensures r.Ok? && RegionValid(g) ==> RegionValid(r.value.region)
    ensures r.Err? ==> r.error == NotFound(name) || r.error == MPosOverflow
  {
    if name in g.mpos then Ok(Placed(g.mpos[name], g))
    else if !create then Err(NotFound(name))
    else
      var issued :- NextMPos(g.counter, size);
      if RegionValid(g) then
        ReserveValid(g, name, size);
        Ok(Placed(issued.id, Region(issued.counter, g.mpos[name := issued.id], g.reserved + [Reservation(name, size)])))
      else Ok(Placed(issued.id, Region(issued.counter, g.mpos[name := issued.id], g.reserved + [Reservation(name, size)])))
  }

  // ---------------------------------------------------------------- session

  /** What the layout pass records for a function: where its body starts in
      the token stream, its label map and its size. */
  datatype FunctionData = FunctionData(inpos: nat, labels: map<string, nat>, size: nat)

  /** The translator's fields. Function records are keyed by function ID. */
  datatype Session = Session(
    functionCounter: u32,
    functionIds: map<string, u32>,
    main: u32,
    nativeCounter: u32,
    nativeIds: map<string, u32>,
    natives: seq<string>,
    globals: Region,
    locals: Region,
    functions: map<nat, FunctionData>)

  /** A fresh translator: counters and the entry ID at zero, tables empty. */
  const Initial := Session(0, map[], 0, 0, map[], [], EmptyRegion, EmptyRegion, map[])

  /** isNative: the name was declared by a native block. */
  predicate IsNative(s: Session, name: string) {
    name in s.natives
  }

  /** Every ID in a table lies below its counter. */
  predicate Below(m: map<string, u32>, bound: nat) {
    forall x :: x in m ==> m[x] < bound
  }

  predicate Injective(m: map<string, u32>) {
    forall x, y :: x in m && y in m && x != y ==> m[x] != m[y]
  }

  /** The function table is injective below its counter. */
  predicate IdsValid(s: Session) {
    Below(s.functionIds, s.functionCounter) && Injective(s.functionIds)
  }

  datatype Lookup = Lookup(id: u32, session: Session)

  /** functionIDFor: a present name yields its stored ID and changes
      nothing; an absent name aborts unless create is set, in which case it
      is given the next function ID. */
  function FunctionIdFor(s: Session, name: string, create: bool): (r: Result<Lookup>)
    ensures name in s.functionIds ==> r == Ok(Lookup(s.functionIds[name], s))
    ensures name !in s.functionIds && !create ==> r == Err(NotFound(name))
    ensures name !in s.functionIds && create ==> (r.Ok? <==> s.functionCounter < 0xFFFF_FFFF)
    ensures name !in s.functionIds && r.Ok? ==>
      && r.value.id == s.functionCounter
      && r.value.session == s.(functionIds := s.functionIds[name := s.functionCounter],
                               functionCounter := s.functionCounter + 1)
    ensures r.Ok? ==> name in r.value.session.functionIds && r.value.session.functionIds[name] == r.value.id
    ensures r.Ok? && IdsValid(s) ==> IdsValid(r.value.session)
  {
    if name in s.functionIds then Ok(Lookup(s.functionIds[name], s))
    else if !create then Err(NotFound(name))
    else
      var issued :- NextId(s.functionCounter);
      Ok(Lookup(issued.id, s.(functionIds := s.functionIds[name := issued.id], functionCounter := issued.counter)))
  }
}
