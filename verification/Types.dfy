/**
  * The table of types: records laid out one after another in a vector of items, each
  * after a cell that links to the one before.  A type is a built-in (negative) or the
  * index of a record.
  */
module Types {
  import opened Common

  const ITEM_MAX: int := 0x7fff_ffff_ffff_ffff

  const TYPE_VARARG: int := -9
  const TYPE_VOID: int := -6
  const TYPE_BOOLEAN: int := -4
  const TYPE_FLOATING: int := -3
  const TYPE_CHARACTER: int := -2
  const TYPE_INTEGER: int := -1

  const TYPE_FUNCTION: int := 1002
  const TYPE_STRUCTURE: int := 1003
  const TYPE_ARRAY: int := 1004
  const TYPE_POINTER: int := 1005
  const TYPE_CONST: int := 1007

  datatype Member = Member(typ: int, name: int)

  datatype Record =
    | Array(element: int)
    | Pointer(element: int)
    | Const(base: int)
    | Function(result: int, parameters: seq<int>)
    | Structure(size: int, members: seq<Member>)

  predicate IsBuiltin(t: int) {
    TYPE_VARARG <= t <= TYPE_INTEGER
  }

  // ------------------------------------------------------------------------ layout

  function MemberCells(ms: seq<Member>): (cells: seq<int>)
    ensures |cells| == 2 * |ms|
  {
    seq(2 * |ms|, i requires 0 <= i < 2 * |ms| => if i % 2 == 0 then ms[i / 2].typ else ms[i / 2].name)
  }

  /** The cells of a record. */
  function Cells(r: Record): (cells: seq<int>)
    ensures |cells| >= 2
  {
    match r
    case Array(e) => [TYPE_ARRAY, e]
    case Pointer(e) => [TYPE_POINTER, e]
    case Const(b) => [TYPE_CONST, b]
    case Function(t, ps) => [TYPE_FUNCTION, t, |ps|] + ps
    case Structure(size, ms) => [TYPE_STRUCTURE, size, 2 * |ms|] + MemberCells(ms)
  }

  /** The whole vector: cell 0 is unused, and every record follows its link. */
  function Flat(rs: seq<Record>): (cells: seq<int>)
    ensures |cells| >= 1
  {
    if rs == [] then [0]
    else
      var n := |rs| - 1;
      Flat(rs[..n]) + [Link(rs[..n])] + Cells(rs[n])
  }

  /** The cell of the last link, 0 when there is no record. */
  function Link(rs: seq<Record>): nat {
    if rs == [] then 0 else |Flat(rs[..|rs| - 1])|
  }

  /** The type of a record. */
  function Index(rs: seq<Record>, k: nat): (i: nat)
    requires k <= |rs|
    ensures i >= 2
  {
    |Flat(rs[..k])| + 1
  }

  // ---------------------------------------------------------------------- equality

  /** A cell of the vector; outside it, the largest item. */
  function At(types: seq<int>, i: int): int {
    if 0 <= i < |types| then types[i] else ITEM_MAX
  }

  /** A cell of the record at an index. */
  function Nth(types: seq<int>, first: int, i: int): int {
    At(types, first + i)
  }

  function Count(types: seq<int>, first: int): int {
    var class_ := At(types, first);
    if class_ == TYPE_STRUCTURE || class_ == TYPE_FUNCTION then 2 + Nth(types, first, 2) else 1
  }

  /** Two records are equal as the table compares them: a const record by its base. */
  predicate EqualAt(types: seq<int>, first: int, second: int)
    decreases first
  {
    && At(types, first) == At(types, second)
    && if At(types, first) == TYPE_CONST then
         var a, b := Nth(types, first, 1), Nth(types, second, 1);
         if 0 <= first && a < first then EqualAt(types, a, b) else a == b
       else
         forall i :: 1 <= i <= Count(types, first) ==> Nth(types, first, i) == Nth(types, second, i)
  }

  /** Two records are taken for the same type. */
  predicate Alike(r: Record, s: Record) {
    r == s || (r.Const? && s.Const? && Clash(r.base) && Clash(s.base))
  }

  /** Built-in types other than int: their const versions are not told apart. */
  predicate Clash(t: int) {
    IsBuiltin(t) && t != TYPE_INTEGER
  }

  /** Two different records are never taken for the same type. */
  ghost predicate Canonical(rs: seq<Record>) {
    forall j, k :: 0 <= j < k < |rs| ==> !Alike(rs[j], rs[k])
  }

  /** A type that the first n records define. */
  ghost predicate Defined(rs: seq<Record>, n: nat, t: int)
    requires n <= |rs|
  {
    IsBuiltin(t) || exists k :: 0 <= k < n && t == Index(rs, k)
  }

  ghost predicate GroundedAt(rs: seq<Record>, n: nat, r: Record)
    requires n <= |rs|
  {
    match r
    case Array(e) => Defined(rs, n, e)
    case Pointer(e) => Defined(rs, n, e)
    case Const(b) => Defined(rs, n, b)
    case Function(t, ps) => Defined(rs, n, t) && forall i :: 0 <= i < |ps| ==> Defined(rs, n, ps[i])
    case Structure(_, ms) => forall i :: 0 <= i < |ms| ==> Defined(rs, n, ms[i].typ)
  }

  /** Every record is made of types before it. */
  ghost predicate Grounded(rs: seq<Record>) {
    forall k :: 0 <= k < |rs| ==> GroundedAt(rs, k, rs[k])
  }

  // ----------------------------------------------------------------- layout lemmas

  lemma {:induction false} FlatPrefix(rs: seq<Record>, k: nat)
    requires k <= |rs|
    ensures |Flat(rs[..k])| <= |Flat(rs)| && Flat(rs)[..|Flat(rs[..k])|] == Flat(rs[..k])
    ensures k < |rs| ==> |Flat(rs[..k])| < |Flat(rs)|
    decreases |rs|
  {
    if k == |rs| {
      assert rs[..k] == rs;
    } else {
      var n := |rs| - 1;
      FlatPrefix(rs[..n], k);
      assert rs[..n][..k] == rs[..k];
    }
  }

  lemma {:induction false} CellsAt(rs: seq<Record>, k: nat, i: nat)
    requires k < |rs| && i < |Cells(rs[k])|
    ensures Index(rs, k) + i < |Flat(rs)| && Flat(rs)[Index(rs, k) + i] == Cells(rs[k])[i]
  {
    hide Cells;
    FlatPrefix(rs, k + 1);
    FlatPrefix(rs, k);
    assert rs[..k + 1][..k] == rs[..k];
    ShapeFlat(rs[..k + 1]);
    assert Flat(rs)[Index(rs, k) + i] == Flat(rs)[..|Flat(rs[..k + 1])|][Index(rs, k) + i];
  }

  lemma ShapeFlat(rs: seq<Record>)
    requires rs != []
    ensures var n := |rs| - 1; Flat(rs) == Flat(rs[..n]) + [Link(rs[..n])] + Cells(rs[n])
  {
  }

  lemma LinkAt(rs: seq<Record>, k: nat)
    requires k < |rs|
    ensures Index(rs, k) - 1 < |Flat(rs)| && Flat(rs)[Index(rs, k) - 1] == Link(rs[..k])
  {
    hide Cells;
    FlatPrefix(rs, k + 1);
    FlatPrefix(rs, k);
    assert rs[..k + 1][..k] == rs[..k];
    ShapeFlat(rs[..k + 1]);
    assert Flat(rs)[Index(rs, k) - 1] == Flat(rs)[..|Flat(rs[..k + 1])|][Index(rs, k) - 1];
  }

  lemma {:induction false} IndexGrows(rs: seq<Record>, j: nat, k: nat)
    requires j < k <= |rs|
    ensures Index(rs, j) < Index(rs, k)
  {
    FlatPrefix(rs[..k], j);
    assert rs[..k][..j] == rs[..j];
  }

  /** Records keep their types when another record is added. */
  lemma IndexKept(rs: seq<Record>, r: Record, k: nat)
    requires k <= |rs|
    ensures Index(rs + [r], k) == Index(rs, k)
  {
    assert (rs + [r])[..k] == rs[..k];
  }

  lemma DefinedKept(rs: seq<Record>, r: Record, n: nat, t: int)
    requires n <= |rs|
    ensures Defined(rs + [r], n, t) == Defined(rs, n, t)
  {
    forall k | 0 <= k < n ensures Index(rs + [r], k) == Index(rs, k) {
      IndexKept(rs, r, k);
    }
  }

  lemma DefinedLater(rs: seq<Record>, n: nat, m: nat, t: int)
    requires n <= m <= |rs| && Defined(rs, n, t)
    ensures Defined(rs, m, t)
  {
  }

  lemma GroundedKept(rs: seq<Record>, r: Record, n: nat, s: Record)
    requires n <= |rs| && GroundedAt(rs, n, s)
    ensures GroundedAt(rs + [r], n, s)
  {
    hide Defined;
    forall t ensures Defined(rs + [r], n, t) == Defined(rs, n, t) {
      DefinedKept(rs, r, n, t);
    }
  }

  // ------------------------------------------------- the comparison is what it is for

  lemma SameCells(r: Record, s: Record)
    requires Cells(r) == Cells(s)
    ensures r == s
  {
    match r
    case Array(_) =>
    case Pointer(_) =>
    case Const(_) =>
    case Function(t, ps) =>
      assert Cells(r)[0] == Cells(s)[0] && Cells(r)[1] == Cells(s)[1] && Cells(r)[2] == Cells(s)[2];
      assert Cells(r)[3..] == ps && Cells(s)[3..] == s.parameters;
    case Structure(size, ms) =>
      assert Cells(r)[0] == Cells(s)[0] && Cells(r)[1] == Cells(s)[1] && Cells(r)[2] == Cells(s)[2];
      assert Cells(r)[3..] == MemberCells(ms) && Cells(s)[3..] == MemberCells(s.members);
      SameMembers(ms, s.members);
  }

  lemma SameMembers(ms: seq<Member>, ns: seq<Member>)
    requires MemberCells(ms) == MemberCells(ns)
    ensures ms == ns
  {
    assert |ms| == |ns|;
    forall i | 0 <= i < |ms| ensures ms[i] == ns[i] {
      assert MemberCells(ms)[2 * i] == ms[i].typ && MemberCells(ms)[2 * i + 1] == ms[i].name;
      assert MemberCells(ns)[2 * i] == ns[i].typ && MemberCells(ns)[2 * i + 1] == ns[i].name;
    }
  }

  /** Plain records: the comparison of cells tells exactly whether they are equal. */
  lemma PlainEqual(rs: seq<Record>, i: nat, j: nat)
    requires i < |rs| && j < |rs| && !rs[i].Const?
    ensures EqualAt(Flat(rs), Index(rs, i), Index(rs, j)) <==> rs[i] == rs[j]
  {
    hide Flat, Index, Cells;
    var types, a, b := Flat(rs), Index(rs, i), Index(rs, j);
    var r, s := Cells(rs[i]), Cells(rs[j]);
    forall k | 0 <= k < |r| ensures Nth(types, a, k) == r[k] {
      CellsAt(rs, i, k);
    }
    forall k | 0 <= k < |s| ensures Nth(types, b, k) == s[k] {
      CellsAt(rs, j, k);
    }
    assert Nth(types, a, 0) == r[0] && Nth(types, b, 0) == s[0];
    CellCount(rs[i], types, a);
    CellCount(rs[j], types, b);
    if EqualAt(types, a, b) {
      SameClass(rs[i], rs[j]);
      assert |r| > 2 ==> Nth(types, a, 2) == Nth(types, b, 2);
      assert forall k :: 0 <= k < |r| && k < |s| ==> Nth(types, a, k) == r[k] && Nth(types, b, k) == s[k];
      assert |r| == |s|;
      forall k | 0 <= k < |r| ensures r[k] == s[k] {
        assert Nth(types, a, k) == Nth(types, b, k);
      }
      SameCells(rs[i], rs[j]);
    }
  }

  lemma SameClass(r: Record, s: Record)
    requires Cells(r)[0] == Cells(s)[0]
    ensures r.Const? == s.Const? && (|Cells(r)| > 2) == (|Cells(s)| > 2)
  {
  }

  lemma CellCount(r: Record, types: seq<int>, a: int)
    requires forall k :: 0 <= k < |Cells(r)| ==> Nth(types, a, k) == Cells(r)[k]
    ensures !r.Const? ==> At(types, a) != TYPE_CONST && |Cells(r)| == Count(types, a) + 1
    ensures r.Const? ==> At(types, a) == TYPE_CONST
  {
    assert Nth(types, a, 0) == Cells(r)[0];
    if |Cells(r)| > 2 {
      assert Nth(types, a, 2) == Cells(r)[2];
    }
  }

  lemma ClassAt(rs: seq<Record>, i: nat)
    requires i < |rs|
    ensures At(Flat(rs), Index(rs, i)) == Cells(rs[i])[0] && Nth(Flat(rs), Index(rs, i), 1) == Cells(rs[i])[1]
    ensures (At(Flat(rs), Index(rs, i)) == TYPE_CONST) == rs[i].Const? && At(Flat(rs), Index(rs, i)) != ITEM_MAX
  {
    hide Flat, Index;
    CellsAt(rs, i, 0);
    CellsAt(rs, i, 1);
  }

  /** A const record is compared by comparing what lies at its base. */
  lemma ConstStep(rs: seq<Record>, i: nat, j: nat)
    requires i < |rs| && j < |rs| && rs[i].Const? && rs[j].Const? && rs[i].base < Index(rs, i)
    ensures EqualAt(Flat(rs), Index(rs, i), Index(rs, j)) == EqualAt(Flat(rs), rs[i].base, rs[j].base)
  {
    hide Flat, Index;
    ClassAt(rs, i);
    ClassAt(rs, j);
  }

  lemma BuiltinEqual(rs: seq<Record>, x: int, y: int)
    requires IsBuiltin(x) && IsBuiltin(y)
    ensures EqualAt(Flat(rs), x, y) <==> (x == y || (Clash(x) && Clash(y)))
  {
    var types := Flat(rs);
    FlatFirst(rs);
    assert Nth(types, x, 1) == if x == TYPE_INTEGER then 0 else ITEM_MAX;
    assert Nth(types, y, 1) == if y == TYPE_INTEGER then 0 else ITEM_MAX;
  }

  lemma {:induction false} FlatFirst(rs: seq<Record>)
    ensures Flat(rs)[0] == 0
  {
    if rs != [] {
      FlatFirst(rs[..|rs| - 1]);
    }
  }

  lemma MixedUnequal(rs: seq<Record>, x: int, m: nat)
    requires IsBuiltin(x) && m < |rs|
    ensures !EqualAt(Flat(rs), x, Index(rs, m)) && !EqualAt(Flat(rs), Index(rs, m), x)
  {
    hide Flat, Index;
    ClassAt(rs, m);
  }

  lemma IndexInjective(rs: seq<Record>, j: nat, k: nat)
    requires j <= |rs| && k <= |rs|
    ensures (Index(rs, j) == Index(rs, k)) == (j == k)
  {
    hide Index;
    if j < k {
      IndexGrows(rs, j, k);
    } else if k < j {
      IndexGrows(rs, k, j);
    }
  }

  /** The comparison of the table tells exactly whether two records are taken for the same type. */
  lemma {:induction false} Compares(rs: seq<Record>, i: nat, j: nat)
    requires rs != [] && Grounded(rs) && Canonical(rs[..|rs| - 1]) && i < |rs| && j < |rs|
    ensures EqualAt(Flat(rs), Index(rs, i), Index(rs, j)) <==> Alike(rs[i], rs[j])
    decreases i
  {
    hide Flat, Index, EqualAt, Cells;
    if !rs[i].Const? {
      PlainEqual(rs, i, j);
    } else if !rs[j].Const? {
      DifferentClass(rs, i, j);
    } else {
      var x, y := rs[i].base, rs[j].base;
      assert GroundedAt(rs, i, rs[i]) && GroundedAt(rs, j, rs[j]);
      BaseBefore(rs, i);
      ConstStep(rs, i, j);
      if IsBuiltin(x) && IsBuiltin(y) {
        BuiltinEqual(rs, x, y);
      } else if IsBuiltin(x) {
        var m :| 0 <= m < j && y == Index(rs, m);
        MixedUnequal(rs, x, m);
      } else if IsBuiltin(y) {
        var m :| 0 <= m < i && x == Index(rs, m);
        MixedUnequal(rs, y, m);
      } else {
        var m :| 0 <= m < i && x == Index(rs, m);
        var n :| 0 <= n < j && y == Index(rs, n);
        Compares(rs, m, n);
        IndexInjective(rs, m, n);
        assert rs[..|rs| - 1][m] == rs[m] && rs[..|rs| - 1][n] == rs[n];
        if m < n {
          assert !Alike(rs[m], rs[n]);
        } else if n < m {
          assert !Alike(rs[n], rs[m]);
        }
        assert Index(rs, m) >= 2 && Index(rs, n) >= 2;
      }
    }
  }

  lemma DifferentClass(rs: seq<Record>, i: nat, j: nat)
    requires i < |rs| && j < |rs| && rs[i].Const? && !rs[j].Const?
    ensures !EqualAt(Flat(rs), Index(rs, i), Index(rs, j))
  {
    hide Flat, Index, Cells;
    ClassAt(rs, i);
    ClassAt(rs, j);
  }

  lemma BaseBefore(rs: seq<Record>, i: nat)
    requires i < |rs| && rs[i].Const? && GroundedAt(rs, i, rs[i])
    ensures rs[i].base < Index(rs, i)
  {
    hide Index;
    if !IsBuiltin(rs[i].base) {
      var m :| 0 <= m < i && rs[i].base == Index(rs, m);
      IndexGrows(rs, m, i);
    }
  }

  // ------------------------------------------------------------------------ adding

  /** The last of the first n records that is taken for the same type; n when there is none. */
  function Find(rs: seq<Record>, r: Record, n: nat): (k: nat)
    requires n <= |rs|
    ensures k <= n && (k < n ==> Alike(rs[k], r)) && (forall j :: k < j < n ==> !Alike(rs[j], r))
    ensures k == n ==> forall j :: 0 <= j < n ==> !Alike(rs[j], r)
    decreases n
  {
    if n == 0 then 0
    else if Alike(rs[n - 1], r) then n - 1
    else
      var k := Find(rs, r, n - 1);
      if k == n - 1 then n else k
  }

  /** The records after one is asked for, and its type. */
  function Added(rs: seq<Record>, r: Record): seq<Record> {
    if Find(rs, r, |rs|) < |rs| then rs else rs + [r]
  }

  function TypeOf(rs: seq<Record>, r: Record): int {
    Index(rs, Find(rs, r, |rs|))
  }

  ghost predicate Sound(rs: seq<Record>) {
    Canonical(rs) && Grounded(rs)
  }

  /** Asking for a type keeps the table canonical, and every record made of types before it. */
  lemma AddKeepsSound(rs: seq<Record>, r: Record)
    requires Sound(rs) && GroundedAt(rs, |rs|, r)
    ensures Sound(Added(rs, r))
  {
    hide Index, Alike;
    if Find(rs, r, |rs|) == |rs| {
      AddGrounded(rs, r);
    }
  }

  lemma AddGrounded(rs: seq<Record>, r: Record)
    requires Grounded(rs) && GroundedAt(rs, |rs|, r)
    ensures Grounded(rs + [r])
  {
    hide GroundedAt;
    forall k | 0 <= k < |rs| + 1 ensures GroundedAt(rs + [r], k, (rs + [r])[k]) {
      if k < |rs| {
        assert GroundedAt(rs, k, rs[k]);
        GroundedKept(rs, r, k, rs[k]);
      } else {
        GroundedKept(rs, r, k, r);
      }
    }
  }

  /** The records after a run of requests. */
  function AddedAll(rs: seq<Record>, requests: seq<Record>): seq<Record>
    decreases |requests|
  {
    if requests == [] then rs else AddedAll(Added(rs, requests[0]), requests[1..])
  }

  /** Every request names types that are in the table when it is made. */
  ghost predicate GroundedRun(rs: seq<Record>, requests: seq<Record>)
    decreases |requests|
  {
    requests != [] ==> GroundedAt(rs, |rs|, requests[0]) && GroundedRun(Added(rs, requests[0]), requests[1..])
  }

  /** The same over any run of requests, which only appends to the table. */
  lemma {:induction false} RunKeepsSound(rs: seq<Record>, requests: seq<Record>)
    requires Sound(rs) && GroundedRun(rs, requests)
    ensures var rs' := AddedAll(rs, requests); Sound(rs') && |rs| <= |rs'| && rs'[..|rs|] == rs
    decreases |requests|
  {
    hide Sound, GroundedAt, Find;
    if requests != [] {
      AddKeepsSound(rs, requests[0]);
      RunKeepsSound(Added(rs, requests[0]), requests[1..]);
    }
  }

  /** Two requests, one after the other, get the same type exactly when their records are taken for the same. */
  lemma SameTypeExactly(rs: seq<Record>, r: Record, s: Record)
    requires Sound(rs)
    ensures TypeOf(Added(rs, r), s) == TypeOf(rs, r) <==> Alike(r, s)
  {
    hide Index, Alike;
    var rs' := Added(rs, r);
    var k := Find(rs, r, |rs|);
    var m := Find(rs', s, |rs'|);
    AlikeIsEquality();
    if k < |rs| {
      IndexInjective(rs, m, k);
    } else {
      IndexKept(rs, r, k);
      IndexInjective(rs', m, k);
    }
  }

  lemma AlikeIsEquality()
    ensures forall r, s :: Alike(r, s) ==> Alike(s, r)
    ensures forall r, s, t :: Alike(r, s) && Alike(s, t) ==> Alike(r, t)
    ensures forall r :: Alike(r, r)
  {
  }

  /** Types given out keep their records, whatever is added later. */
  lemma AddKeepsRecords(rs: seq<Record>, r: Record, k: nat)
    requires k < |rs|
    ensures var rs' := Added(rs, r);
      && rs'[k] == rs[k] && Index(rs', k) == Index(rs, k)
      && |Flat(rs)| <= |Flat(rs')| && Flat(rs')[..|Flat(rs)|] == Flat(rs)
  {
    hide Flat, Index;
    if Find(rs, r, |rs|) == |rs| {
      IndexKept(rs, r, k);
      FlatPrefix(rs + [r], |rs|);
      assert (rs + [r])[..|rs|] == rs;
    } else {
      FlatPrefix(rs, |rs|);
      assert rs[..|rs|] == rs;
    }
  }

  /**
    * const float and const bool are taken for the same type: whichever is asked for
    * first stands for both, although their records differ.
    */
  lemma ConstConfused(rs: seq<Record>)
    requires Sound(rs)
    ensures TypeOf(Added(rs, Const(TYPE_FLOATING)), Const(TYPE_BOOLEAN)) == TypeOf(rs, Const(TYPE_FLOATING))
    ensures Const(TYPE_FLOATING) != Const(TYPE_BOOLEAN)
  {
    SameTypeExactly(rs, Const(TYPE_FLOATING), Const(TYPE_BOOLEAN));
  }
}
