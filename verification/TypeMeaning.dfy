/**
  * What the types of the table stand for, and why the compiler may compare them by
  * their index.
  */
module TypeMeaning {
  import opened Types

  datatype Type =
    | Basic(code: int)
    | ArrayOf(element: Type)
    | PointerTo(element: Type)
    | ConstOf(base: Type)
    | FunctionOf(result: Type, parameters: seq<Type>)
    | StructureOf(fields: seq<Field>)

  datatype Field = Field(typ: Type, name: int)

  /** The cells that a variable of a type takes. */
  function Footprint(t: Type): nat {
    match t
    case Basic(c) => if c == TYPE_FLOATING then 2 else 1
    case ConstOf(b) => Footprint(b)
    case StructureOf(fs) => FieldsFootprint(fs)
    case _ => 1
  }

  function FieldsFootprint(fs: seq<Field>): nat {
    if fs == [] then 0
    else
      FieldsFootprint(fs[..|fs| - 1]) + FieldFootprint(fs[|fs| - 1])
  }

  function FieldFootprint(f: Field): nat {
    Footprint(f.typ)
  }

  /** The record of a type among the first n, n when it has none. */
  function Position(rs: seq<Record>, n: nat, t: int): (k: nat)
    requires n <= |rs|
    ensures k <= n && (k < n ==> Index(rs, k) == t)
    ensures k == n ==> forall j :: 0 <= j < n ==> Index(rs, j) != t
    decreases n
  {
    if n == 0 then 0
    else if Index(rs, n - 1) == t then n - 1
    else
      var k := Position(rs, n - 1, t);
      if k == n - 1 then n else k
  }

  /** What a type stands for, by the first n records. */
  function Unfold(rs: seq<Record>, n: nat, t: int): Type
    requires n <= |rs|
    decreases n, 1
  {
    var k := Position(rs, n, t);
    if k == n then Basic(t) else UnfoldRecord(rs, k)
  }

  function UnfoldRecord(rs: seq<Record>, k: nat): Type
    requires k < |rs|
    decreases k, 4
  {
    RecordMeaning(rs, k, rs[k])
  }

  /** What a record stands for when its components are types of the first n records. */
  function RecordMeaning(rs: seq<Record>, n: nat, r: Record): Type
    requires n <= |rs|
    decreases n, 3
  {
    match r
    case Array(e) => ArrayOf(Unfold(rs, n, e))
    case Pointer(e) => PointerTo(Unfold(rs, n, e))
    case Const(b) => ConstOf(Unfold(rs, n, b))
    case Function(t, ps) => FunctionOf(Unfold(rs, n, t), UnfoldAll(rs, n, ps))
    case Structure(_, ms) => StructureOf(UnfoldFields(rs, n, ms))
  }

  function UnfoldAll(rs: seq<Record>, k: nat, ps: seq<int>): (ts: seq<Type>)
    requires k <= |rs|
    ensures |ts| == |ps| && forall i :: 0 <= i < |ps| ==> ts[i] == Unfold(rs, k, ps[i])
    decreases k, 2, |ps|
  {
    if ps == [] then [] else UnfoldAll(rs, k, ps[..|ps| - 1]) + [Unfold(rs, k, ps[|ps| - 1])]
  }

  function UnfoldFields(rs: seq<Record>, k: nat, ms: seq<Member>): (fs: seq<Field>)
    requires k <= |rs|
    ensures |fs| == |ms| && forall i :: 0 <= i < |ms| ==> fs[i] == Field(Unfold(rs, k, ms[i].typ), ms[i].name)
    decreases k, 2, |ms|
  {
    if ms == [] then []
    else
      var n := |ms| - 1;
      UnfoldFields(rs, k, ms[..n]) + [Field(Unfold(rs, k, ms[n].typ), ms[n].name)]
  }

  /** Every structure carries the number of cells of its members. */
  ghost predicate Sized(rs: seq<Record>) {
    forall k :: 0 <= k < |rs| && rs[k].Structure? ==> rs[k].size == Footprint(UnfoldRecord(rs, k))
  }

  // ---------------------------------------------------------------------- positions

  lemma PositionIs(rs: seq<Record>, n: nat, k: nat)
    requires k < n <= |rs|
    ensures Position(rs, n, Index(rs, k)) == k
  {
    hide Index;
    var j := Position(rs, n, Index(rs, k));
    IndexInjective(rs, j, k);
  }

  lemma PositionBuiltin(rs: seq<Record>, n: nat, t: int)
    requires n <= |rs| && IsBuiltin(t)
    ensures Position(rs, n, t) == n && Unfold(rs, n, t) == Basic(t)
  {
  }

  lemma UnfoldLater(rs: seq<Record>, n: nat, m: nat, t: int)
    requires n <= m <= |rs| && Defined(rs, n, t)
    ensures Unfold(rs, m, t) == Unfold(rs, n, t)
  {
    hide UnfoldRecord, Index;
    if IsBuiltin(t) {
      PositionBuiltin(rs, n, t);
      PositionBuiltin(rs, m, t);
    } else {
      var k :| 0 <= k < n && t == Index(rs, k);
      PositionIs(rs, n, k);
      PositionIs(rs, m, k);
    }
  }

  lemma {:induction false} PositionKept(rs: seq<Record>, r: Record, n: nat, t: int)
    requires n <= |rs|
    ensures Position(rs + [r], n, t) == Position(rs, n, t)
    decreases n
  {
    hide Index;
    if n > 0 {
      IndexKept(rs, r, n - 1);
      PositionKept(rs, r, n - 1, t);
    }
  }

  /** Types keep their meaning when a record is added. */
  lemma {:induction false} UnfoldKept(rs: seq<Record>, r: Record, n: nat, t: int)
    requires n <= |rs|
    ensures Unfold(rs + [r], n, t) == Unfold(rs, n, t)
    decreases n, 1
  {
    hide UnfoldRecord;
    PositionKept(rs, r, n, t);
    if Position(rs, n, t) < n {
      RecordKept(rs, r, Position(rs, n, t));
    }
  }

  lemma {:induction false} RecordKept(rs: seq<Record>, r: Record, k: nat)
    requires k < |rs|
    ensures UnfoldRecord(rs + [r], k) == UnfoldRecord(rs, k)
    decreases k, 3
  {
    assert (rs + [r])[k] == rs[k];
    MeaningKept(rs, r, k, rs[k]);
  }

  lemma {:induction false} MeaningKept(rs: seq<Record>, r: Record, n: nat, s: Record)
    requires n <= |rs|
    ensures RecordMeaning(rs + [r], n, s) == RecordMeaning(rs, n, s)
    decreases n, 2
  {
    hide Unfold;
    forall t ensures Unfold(rs + [r], n, t) == Unfold(rs, n, t) {
      UnfoldKept(rs, r, n, t);
    }
    match s
    case Function(_, ps) => assert UnfoldAll(rs + [r], n, ps) == UnfoldAll(rs, n, ps);
    case Structure(_, ms) => assert UnfoldFields(rs + [r], n, ms) == UnfoldFields(rs, n, ms);
    case _ =>
  }

  lemma MeaningLater(rs: seq<Record>, n: nat, m: nat, r: Record)
    requires n <= m <= |rs| && GroundedAt(rs, n, r)
    ensures RecordMeaning(rs, m, r) == RecordMeaning(rs, n, r)
  {
    hide Unfold, Defined;
    forall t | Defined(rs, n, t) ensures Unfold(rs, m, t) == Unfold(rs, n, t) {
      UnfoldLater(rs, n, m, t);
    }
    match r
    case Function(_, ps) => assert UnfoldAll(rs, m, ps) == UnfoldAll(rs, n, ps);
    case Structure(_, ms) => assert UnfoldFields(rs, m, ms) == UnfoldFields(rs, n, ms);
    case _ =>
  }

  // -------------------------------------------------------------- index and meaning

  /** Records with one meaning are one record. */
  lemma {:induction false} SameRecord(rs: seq<Record>, i: nat, j: nat)
    requires Sound(rs) && Sized(rs) && i < |rs| && j < |rs| && UnfoldRecord(rs, i) == UnfoldRecord(rs, j)
    ensures i == j
    decreases i, 1
  {
    hide Unfold, Index, Footprint, Defined, IsBuiltin;
    assert GroundedAt(rs, i, rs[i]) && GroundedAt(rs, j, rs[j]);
    forall t, u | Defined(rs, i, t) && Defined(rs, j, u) && Unfold(rs, i, t) == Unfold(rs, j, u) ensures t == u {
      SameComponent(rs, i, j, t, u);
    }
    match rs[i] {
      case Function(_, ps) => SameParameters(rs, i, j, ps, rs[j].parameters);
      case Structure(_, ms) => SameFields(rs, i, j, ms, rs[j].members);
      case _ =>
    }
    assert rs[i] == rs[j];
  }

  lemma SameParameters(rs: seq<Record>, i: nat, j: nat, ps: seq<int>, qs: seq<int>)
    requires i <= |rs| && j <= |rs| && UnfoldAll(rs, i, ps) == UnfoldAll(rs, j, qs)
    requires forall k :: 0 <= k < |ps| ==> Defined(rs, i, ps[k])
    requires forall k :: 0 <= k < |qs| ==> Defined(rs, j, qs[k])
    requires forall t, u :: Defined(rs, i, t) && Defined(rs, j, u) && Unfold(rs, i, t) == Unfold(rs, j, u) ==> t == u
    ensures ps == qs
  {
    hide Unfold, Defined;
    assert |ps| == |qs|;
    forall k | 0 <= k < |ps| ensures ps[k] == qs[k] {
      assert UnfoldAll(rs, i, ps)[k] == UnfoldAll(rs, j, qs)[k];
    }
  }

  lemma SameFields(rs: seq<Record>, i: nat, j: nat, ms: seq<Member>, ns: seq<Member>)
    requires i <= |rs| && j <= |rs| && UnfoldFields(rs, i, ms) == UnfoldFields(rs, j, ns)
    requires forall k :: 0 <= k < |ms| ==> Defined(rs, i, ms[k].typ)
    requires forall k :: 0 <= k < |ns| ==> Defined(rs, j, ns[k].typ)
    requires forall t, u :: Defined(rs, i, t) && Defined(rs, j, u) && Unfold(rs, i, t) == Unfold(rs, j, u) ==> t == u
    ensures ms == ns
  {
    hide Unfold, Defined;
    assert |ms| == |ns|;
    forall k | 0 <= k < |ms| ensures ms[k] == ns[k] {
      assert UnfoldFields(rs, i, ms)[k] == UnfoldFields(rs, j, ns)[k];
    }
  }

  lemma {:induction false} SameComponent(rs: seq<Record>, i: nat, j: nat, t: int, u: int)
    requires Sound(rs) && Sized(rs) && i < |rs| && j < |rs|
    requires Defined(rs, i, t) && Defined(rs, j, u) && Unfold(rs, i, t) == Unfold(rs, j, u)
    ensures t == u
    decreases i, 0
  {
    hide Index, UnfoldRecord, Sound, Sized;
    if IsBuiltin(t) {
      PositionBuiltin(rs, i, t);
      if !IsBuiltin(u) {
        var m :| 0 <= m < j && u == Index(rs, m);
        PositionIs(rs, j, m);
        NotBasic(rs, m);
      } else {
        PositionBuiltin(rs, j, u);
      }
    } else {
      var k :| 0 <= k < i && t == Index(rs, k);
      PositionIs(rs, i, k);
      NotBasic(rs, k);
      if IsBuiltin(u) {
        PositionBuiltin(rs, j, u);
      } else {
        var m :| 0 <= m < j && u == Index(rs, m);
        PositionIs(rs, j, m);
        SameRecord(rs, k, m);
      }
    }
  }

  lemma NotBasic(rs: seq<Record>, k: nat)
    requires k < |rs|
    ensures !UnfoldRecord(rs, k).Basic?
  {
  }

  /** In a table that the compiler built, types are the same exactly when they mean the same. */
  lemma IndexIsMeaning(rs: seq<Record>, t: int, u: int)
    requires Sound(rs) && Sized(rs) && Defined(rs, |rs|, t) && Defined(rs, |rs|, u)
    ensures t == u <==> Unfold(rs, |rs|, t) == Unfold(rs, |rs|, u)
  {
    hide Index, UnfoldRecord, Sound, Sized;
    var n := |rs|;
    if Unfold(rs, n, t) == Unfold(rs, n, u) {
      if IsBuiltin(t) {
        PositionBuiltin(rs, n, t);
        if IsBuiltin(u) {
          PositionBuiltin(rs, n, u);
        } else {
          var m :| 0 <= m < n && u == Index(rs, m);
          PositionIs(rs, n, m);
          NotBasic(rs, m);
        }
      } else {
        var k :| 0 <= k < n && t == Index(rs, k);
        PositionIs(rs, n, k);
        NotBasic(rs, k);
        if IsBuiltin(u) {
          PositionBuiltin(rs, n, u);
        } else {
          var m :| 0 <= m < n && u == Index(rs, m);
          PositionIs(rs, n, m);
          SameRecord(rs, k, m);
        }
      }
    }
  }

  // ------------------------------------------------------------------------- sizes

  /** The size of a type as the compiler reads it from the vector. */
  function TypeSize(types: seq<int>, t: int): int
    decreases t
  {
    if t > 0 && At(types, t) == TYPE_CONST then
      var b := Nth(types, t, 1);
      if b < t then TypeSize(types, b) else 1
    else if t > 0 && At(types, t) == TYPE_STRUCTURE then Nth(types, t, 1)
    else if t == TYPE_FLOATING then 2
    else 1
  }

  /** It is the number of cells of what the type stands for. */
  lemma {:induction false} TypeSizeIs(rs: seq<Record>, n: nat, t: int)
    requires n <= |rs| && Grounded(rs) && Sized(rs) && Defined(rs, n, t)
    ensures TypeSize(Flat(rs), t) == Footprint(Unfold(rs, n, t))
    decreases n
  {
    hide Flat, Index, Grounded, Sized;
    if IsBuiltin(t) {
      PositionBuiltin(rs, n, t);
    } else {
      var k :| 0 <= k < n && t == Index(rs, k);
      PositionIs(rs, n, k);
      ClassAt(rs, k);
      assert GroundedAt(rs, k, rs[k]) by { GroundedHere(rs, k); }
      assert Unfold(rs, n, t) == RecordMeaning(rs, k, rs[k]);
      match rs[k]
      case Const(b) =>
        BaseBefore(rs, k);
        TypeSizeIs(rs, k, b);
      case Structure(_, _) => SizedHere(rs, k);
      case _ =>
    }
  }

  lemma GroundedHere(rs: seq<Record>, k: nat)
    requires Grounded(rs) && k < |rs|
    ensures GroundedAt(rs, k, rs[k])
  {
  }

  lemma SizedHere(rs: seq<Record>, k: nat)
    requires Sized(rs) && k < |rs| && rs[k].Structure?
    ensures rs[k].size == Footprint(UnfoldRecord(rs, k))
  {
  }
}
