/** Shared vocabulary of the assembler model: the failure result every abort
    becomes, bytes and little-endian fields, the character-to-byte view of a
    name, and the lexicographic order in which a std::map keyed by names is
    walked. */
module Base {

  /** Every way an assembly job can abort. The log message of the source is
      reduced to the offending token or name. */
  datatype Error =
    | UnexpectedEof
    | InvalidBlockDef(token: string)
    | InvalidFunctionDef(token: string)
    | InvalidNativeDef(token: string)
    | Redeclared(name: string)
    | DuplicateNative(name: string)
    | IdOverflow
    | MPosOverflow
    | NotFound(name: string)
    | LabelNotFound(name: string)
    | UnknownPushType(token: string)
    | UnrecognizedMnemonic(token: string)
    | InvalidType(token: string)
    | InvalidArgument(arg: string)
    | ExpectedArgument
    | InvalidStandard(arg: string)
    | PathsEqual(path: string)
    | NoArguments

  /** A computation that either yields a value or aborts the job. */
  datatype Result<+T> = Ok(value: T) | Err(error: Error) {
    predicate IsFailure() { Err? }

    function PropagateFailure<U>(): Result<U>
      requires Err?
    {
      Err(error)
    }

    function Extract(): T
      requires Ok?
    {
      value
    }
  }

  datatype Option<+T> = None | Some(value: T)

  type byte = b: int | 0 <= b < 256

  const U16: nat := 0x1_0000
  const U32: nat := 0x1_0000_0000
  const U64: nat := 0x1_0000_0000_0000_0000

  function Pow256(n: nat): (r: nat)
    ensures r > 0
  {
    if n == 0 then 1 else 256 * Pow256(n - 1)
  }

  lemma FieldWidths()
    ensures Pow256(1) == 256 && Pow256(2) == U16 && Pow256(4) == U32 && Pow256(8) == U64
  {
    assert Pow256(2) == 256 * Pow256(1);
    assert Pow256(4) == 256 * 256 * Pow256(2);
    assert Pow256(8) == 256 * 256 * 256 * 256 * Pow256(4);
  }

  /** The n low-order bytes of v, least significant first: what writing an
      n-byte integer field does on a little-endian host. Negative values come
      out in two's complement, values too wide are truncated to the field. */
  function LE(v: int, n: nat): (r: seq<byte>)
    ensures |r| == n
    decreases n
  {
    if n == 0 then [] else [v % 256] + LE(v / 256, n - 1)
  }

  /** Reads back an unsigned little-endian field. */
  function FromLE(bs: seq<byte>): (v: nat)
    ensures v < Pow256(|bs|)
  {
    if bs == [] then 0 else bs[0] + 256 * FromLE(bs[1..])
  }

  /** Euclidean division is determined by any decomposition with a remainder
      in range. */
  lemma DivModUnique(v: int, m: int, q: int, c: int)
    requires m > 0 && 0 <= c < m && v == m * q + c
    ensures v / m == q && v % m == c
  {
    var q', c' := v / m, v % m;
    assert v == m * q' + c';
    if q' < q {
      MulStep(m, q', q);
    } else if q' > q {
      MulStep(m, q, q');
    }
  }

  lemma MulStep(m: int, a: int, b: int)
    requires m > 0 && a < b
    ensures m * a + m <= m * b
  {
    MulNonnegative(m, b - a - 1);
    assert m * b == m * a + m + m * (b - a - 1);
  }

  lemma {:induction false} MulNonnegative(m: nat, k: nat)
    ensures m * k >= 0
  {
    if k > 0 {
      MulNonnegative(m, k - 1);
      assert m * k == m * (k - 1) + m;
    }
  }

  /** Writing a field and reading it back yields the value modulo the field
      width: the field round trip. */
  lemma {:induction false} FromLEOfLE(v: int, n: nat)
    ensures FromLE(LE(v, n)) == v % Pow256(n)
    decreases n
  {
    if n > 0 {
      FromLEOfLE(v / 256, n - 1);
      FromLEStep(v, n);
      ModStep(v, Pow256(n - 1));
    }
  }

  lemma FromLEStep(v: int, n: nat)
    requires n > 0
    ensures FromLE(LE(v, n)) == v % 256 + 256 * FromLE(LE(v / 256, n - 1))
  {
    assert LE(v, n)[1..] == LE(v / 256, n - 1);
  }

  /** Peeling the low byte off a remainder. */
  lemma ModStep(v: int, p: int)
    requires p > 0
    ensures v % 256 + 256 * ((v / 256) % p) == v % (256 * p)
  {
    var q, c := v / 256, v % 256;
    var a, b := q / p, q % p;
    assert v == 256 * q + c;
    assert q == p * a + b;
    assert v == (256 * p) * a + (256 * b + c) by {
      assert 256 * q == 256 * (p * a) + 256 * b;
      assert 256 * (p * a) == (256 * p) * a;
    }
    assert 256 * b + c < 256 * p by {
      assert b <= p - 1;
      assert 256 * b <= 256 * (p - 1);
    }
    DivModUnique(v, 256 * p, a, 256 * b + c);
  }

  /** A name's characters as the bytes a std::string holds. */
  function CharByte(c: char): byte {
    (c as int) % 256
  }

  function Bytes(s: string): (r: seq<byte>)
    ensures |r| == |s|
    ensures forall i :: 0 <= i < |s| ==> r[i] == CharByte(s[i])
  {
    if s == [] then [] else [CharByte(s[0])] + Bytes(s[1..])
  }

  /** A name that survives the trip through the file: every character is a
      nonzero byte value. */
  predicate PlainName(n: string) {
    forall i :: 0 <= i < |n| ==> 0 < n[i] as int < 256
  }

  /** The position of the first NUL byte. */
  function FirstNul(bs: seq<byte>): (r: Option<nat>)
    ensures r.Some? ==> r.value < |bs| && bs[r.value] == 0 && forall i :: 0 <= i < r.value ==> bs[i] != 0
    ensures r.None? ==> forall i :: 0 <= i < |bs| ==> bs[i] != 0
  {
    if bs == [] then None
    else if bs[0] == 0 then Some(0)
    else match FirstNul(bs[1..])
      case None => None
      case Some(i) => Some(i + 1)
  }

  /** Bytes read back as characters. */
  function Chars(bs: seq<byte>): (r: string)
    ensures |r| == |bs| && forall i :: 0 <= i < |bs| ==> r[i] as int == bs[i]
  {
    seq(|bs|, i requires 0 <= i < |bs| => bs[i] as char)
  }

  /** The first NUL after the bytes of a plain name is the one written
      after it. */
  lemma {:induction false} FirstNulAfter(b: seq<byte>, rest: seq<byte>)
    requires forall i :: 0 <= i < |b| ==> b[i] != 0
    ensures FirstNul(b + [0] + rest) == Some(|b|)
    decreases |b|
  {
    var bs := b + [0] + rest;
    if b == [] {
      assert bs[0] == 0;
    } else {
      assert bs[1..] == b[1..] + [0] + rest;
      FirstNulAfter(b[1..], rest);
    }
  }

  /** A plain name comes back from its bytes. */
  lemma PlainNameBytes(n: string)
    requires PlainName(n)
    ensures forall i :: 0 <= i < |n| ==> Bytes(n)[i] != 0
    ensures Chars(Bytes(n)) == n
  {
    var b := Bytes(n);
    var c := Chars(b);
    forall i | 0 <= i < |n|
      ensures c[i] == n[i] && b[i] != 0
    {
      DivModUnique(n[i] as int, 256, 0, n[i] as int);
      assert b[i] == CharByte(n[i]) == n[i] as int;
    }
    assert c == n;
  }

  /** Concatenation of a sequence of byte strings. */
  function Flatten(parts: seq<seq<byte>>): (r: seq<byte>)
  {
    if parts == [] then [] else parts[0] + Flatten(parts[1..])
  }

  function Sum(xs: seq<nat>): nat {
    if xs == [] then 0 else xs[0] + Sum(xs[1..])
  }

  function Lengths(parts: seq<seq<byte>>): (r: seq<nat>)
    ensures |r| == |parts|
    ensures forall i :: 0 <= i < |parts| ==> r[i] == |parts[i]|
  {
    if parts == [] then [] else [|parts[0]|] + Lengths(parts[1..])
  }

  lemma {:induction false} FlattenLength(parts: seq<seq<byte>>)
    ensures |Flatten(parts)| == Sum(Lengths(parts))
  {
    if parts != [] {
      FlattenLength(parts[1..]);
      assert Lengths(parts)[1..] == Lengths(parts[1..]);
    }
  }

  lemma {:induction false} SumAppend(xs: seq<nat>, ys: seq<nat>)
    ensures Sum(xs + ys) == Sum(xs) + Sum(ys)
  {
    if xs != [] {
      assert (xs + ys)[0] == xs[0];
      assert (xs + ys)[1..] == xs[1..] + ys;
      SumAppend(xs[1..], ys);
    } else {
      assert xs + ys == ys;
    }
  }

  /** Prefix sums add up where the summands do. */
  lemma {:induction false} SumPointwise(xs: seq<nat>, ys: seq<nat>, zs: seq<nat>, k: nat)
    requires k <= |xs| && k <= |ys| && k <= |zs|
    requires forall i :: 0 <= i < k ==> xs[i] + ys[i] == zs[i]
    ensures Sum(xs[..k]) + Sum(ys[..k]) == Sum(zs[..k])
    decreases k
  {
    if k > 0 {
      SumPointwise(xs, ys, zs, k - 1);
      assert xs[..k] == xs[..k - 1] + [xs[k - 1]];
      assert ys[..k] == ys[..k - 1] + [ys[k - 1]];
      assert zs[..k] == zs[..k - 1] + [zs[k - 1]];
      SumAppend(xs[..k - 1], [xs[k - 1]]);
      SumAppend(ys[..k - 1], [ys[k - 1]]);
      SumAppend(zs[..k - 1], [zs[k - 1]]);
    }
  }

  /** The k-th part of a flattened sequence starts after the lengths of the
      parts before it. */
  lemma {:induction false} FlattenPart(parts: seq<seq<byte>>, k: nat)
    requires k < |parts|
    ensures Sum(Lengths(parts)[..k]) + |parts[k]| <= |Flatten(parts)|
    ensures Flatten(parts)[Sum(Lengths(parts)[..k])..Sum(Lengths(parts)[..k]) + |parts[k]|] == parts[k]
  {
    FlattenLength(parts);
    if k > 0 {
      FlattenPart(parts[1..], k - 1);
      assert Lengths(parts)[1..] == Lengths(parts[1..]);
      assert Lengths(parts)[..k] == [|parts[0]|] + Lengths(parts[1..])[..k - 1];
      FlattenLength(parts[1..]);
    }
  }

  /** std::string ordering: lexicographic on characters, a proper prefix
      sorting first. */
  predicate LexLess(a: string, b: string) {
    if |a| == 0 then |b| > 0
    else if |b| == 0 then false
    else a[0] < b[0] || (a[0] == b[0] && LexLess(a[1..], b[1..]))
  }

  lemma {:induction false} LexIrreflexive(a: string)
    ensures !LexLess(a, a)
  {
    if |a| > 0 {
      LexIrreflexive(a[1..]);
    }
  }

  lemma {:induction false} LexAsymmetric(a: string, b: string)
    ensures LexLess(a, b) ==> !LexLess(b, a)
  {
    if |a| > 0 && |b| > 0 && a[0] == b[0] {
      LexAsymmetric(a[1..], b[1..]);
    }
  }

  lemma {:induction false} LexTransitive(a: string, b: string, c: string)
    requires LexLess(a, b) && LexLess(b, c)
    ensures LexLess(a, c)
  {
    if |a| > 0 && a[0] == b[0] && b[0] == c[0] {
      LexTransitive(a[1..], b[1..], c[1..]);
    }
  }

  lemma {:induction false} LexTotal(a: string, b: string)
    ensures a == b || LexLess(a, b) || LexLess(b, a)
  {
    if |a| > 0 && |b| > 0 && a[0] == b[0] {
      LexTotal(a[1..], b[1..]);
      if a[1..] == b[1..] {
        assert a == [a[0]] + a[1..] && b == [b[0]] + b[1..];
      }
    }
  }

  predicate IsLeast(m: string, s: set<string>) {
    m in s && forall x :: x in s && x != m ==> LexLess(m, x)
  }

  lemma LeastUnique(m: string, m': string, s: set<string>)
    requires IsLeast(m, s) && IsLeast(m', s)
    ensures m == m'
  {
    if m != m' {
      LexAsymmetric(m, m');
    }
  }

  lemma LeastUniqueAll(s: set<string>)
    ensures forall m, m' :: IsLeast(m, s) && IsLeast(m', s) ==> m == m'
  {
    forall m, m' | IsLeast(m, s) && IsLeast(m', s)
      ensures m == m'
    {
      LeastUnique(m, m', s);
    }
  }

  lemma {:induction false} LeastExists(s: set<string>)
    requires s != {}
    ensures exists m :: IsLeast(m, s)
    decreases |s|
  {
    var x :| x in s;
    if s == {x} {
      assert IsLeast(x, s);
    } else {
      LeastExists(s - {x});
      var m :| IsLeast(m, s - {x});
      LexTotal(m, x);
      if LexLess(m, x) {
        assert IsLeast(m, s);
      } else {
        forall y | y in s && y != x
          ensures LexLess(x, y)
        {
          if y != m {
            LexTransitive(x, m, y);
          }
        }
        assert IsLeast(x, s);
      }
    }
  }

  predicate StrictlySorted(r: seq<string>) {
    forall i, j :: 0 <= i < j < |r| ==> LexLess(r[i], r[j])
  }

  /** The keys of a std::map in iteration order. */
  function SortedKeys(s: set<string>): (r: seq<string>)
    ensures |r| == |s|
    ensures forall x :: x in r <==> x in s
    ensures StrictlySorted(r)
    decreases |s|
  {
    if s == {} then []
    else
      LeastExists(s);
      LeastUniqueAll(s);
      var m :| IsLeast(m, s);
      var rest := SortedKeys(s - {m});
      assert forall j :: 0 <= j < |rest| ==> rest[j] in s - {m};
      [m] + rest
  }

  /** The elements of xs that are not in drop, in order. */
  function Without(xs: seq<string>, drop: seq<string>): (r: seq<string>)
    ensures forall x :: x in r <==> x in xs && x !in drop
    ensures |r| <= |xs|
  {
    if xs == [] then []
    else if xs[0] in drop then Without(xs[1..], drop)
    else [xs[0]] + Without(xs[1..], drop)
  }

  predicate Distinct(xs: seq<string>) {
    forall i, j :: 0 <= i < j < |xs| ==> xs[i] != xs[j]
  }

  function Elements(xs: seq<string>): (r: set<string>)
    ensures forall x :: x in r <==> x in xs
  {
    set x | x in xs
  }

  /** A sequence without repetitions has as many elements as entries. */
  lemma {:induction false} DistinctCard(xs: seq<string>)
    requires Distinct(xs)
    ensures |Elements(xs)| == |xs|
  {
    if xs != [] {
      DistinctCard(xs[1..]);
      assert Elements(xs) == Elements(xs[1..]) + {xs[0]};
      assert xs[0] !in Elements(xs[1..]);
    }
  }

  lemma SortedDistinct(xs: seq<string>)
    requires StrictlySorted(xs)
    ensures Distinct(xs)
  {
    forall i, j | 0 <= i < j < |xs|
      ensures xs[i] != xs[j]
    {
      LexIrreflexive(xs[i]);
    }
  }

  lemma {:induction false} WithoutDistinct(xs: seq<string>, drop: seq<string>)
    requires Distinct(xs)
    ensures Distinct(Without(xs, drop))
  {
    if xs != [] {
      assert Distinct(xs[1..]);
      WithoutDistinct(xs[1..], drop);
    }
  }

  /** Filtering a distinct key list by a distinct list of its members removes
      exactly that many entries. */
  lemma WithoutCount(xs: seq<string>, drop: seq<string>)
    requires Distinct(xs) && Distinct(drop)
    requires forall d :: d in drop ==> d in xs
    ensures |Without(xs, drop)| == |xs| - |drop|
  {
    var w := Without(xs, drop);
    WithoutDistinct(xs, drop);
    DistinctCard(w);
    DistinctCard(xs);
    DistinctCard(drop);
    var kept, dropped := Elements(w), Elements(drop);
    assert kept == Elements(xs) - dropped;
    assert Elements(xs) == kept + dropped;
    assert kept !! dropped;
  }

  /** A slice lying past the first part of a concatenation is a slice of the
      second part. */
  lemma SliceAfter<T>(head: seq<T>, rest: seq<T>, i: nat, j: nat)
    requires |head| <= i <= j <= |head| + |rest|
    ensures (head + rest)[i..j] == rest[i - |head|..j - |head|]
  {
  }

  lemma SliceBefore<T>(head: seq<T>, rest: seq<T>, i: nat, j: nat)
    requires i <= j <= |head|
    ensures (head + rest)[i..j] == head[i..j]
  {
  }

  /** The bytes at offset at are those of body. */
  predicate Holds(file: seq<byte>, at: nat, body: seq<byte>) {
    at + |body| <= |file| && file[at..at + |body|] == body
  }
}
