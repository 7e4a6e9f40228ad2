/**
  * Building types from their parts, as declarations do, over any run of requests.
  */
module TypeRequests {
  import opened Types
  import opened TypeMeaning

  /** A table that the compiler can have built. */
  ghost predicate Built(rs: seq<Record>) {
    Sound(rs) && Sized(rs)
  }

  /** The second table has the records of the first, at the same places. */
  predicate Extends(rs: seq<Record>, more: seq<Record>) {
    |rs| <= |more| && more[..|rs|] == rs
  }

  /** The sum of the sizes of the members, as the compiler adds them up. */
  function MembersSize(types: seq<int>, ms: seq<Member>): int {
    if ms == [] then 0 else MembersSize(types, ms[..|ms| - 1]) + TypeSize(types, ms[|ms| - 1].typ)
  }

  function Request(rs: seq<Record>, r: Record): (seq<Record>, int) {
    (Added(rs, r), TypeOf(rs, r))
  }

  /** Asks for a type, from its parts up. */
  function Intern(rs: seq<Record>, t: Type): (seq<Record>, int)
    decreases t
  {
    match t
    case Basic(c) => (rs, c)
    case ArrayOf(e) => var p := Intern(rs, e); Request(p.0, Array(p.1))
    case PointerTo(e) => var p := Intern(rs, e); Request(p.0, Pointer(p.1))
    case ConstOf(b) => var p := Intern(rs, b); Request(p.0, Const(p.1))
    case FunctionOf(result, ps) =>
      var p := Intern(rs, result);
      var q := InternAll(p.0, ps);
      Request(q.0, Function(p.1, q.1))
    case StructureOf(fs) =>
      var q := InternFields(rs, fs);
      Request(q.0, Structure(MembersSize(Flat(q.0), q.1), q.1))
  }

  function InternAll(rs: seq<Record>, ts: seq<Type>): (q: (seq<Record>, seq<int>))
    ensures |q.1| == |ts|
    decreases ts
  {
    if ts == [] then (rs, [])
    else
      var q := InternAll(rs, ts[..|ts| - 1]);
      var p := Intern(q.0, ts[|ts| - 1]);
      (p.0, q.1 + [p.1])
  }

  function InternFields(rs: seq<Record>, fs: seq<Field>): (q: (seq<Record>, seq<Member>))
    ensures |q.1| == |fs|
    decreases fs
  {
    if fs == [] then (rs, [])
    else
      var q := InternFields(rs, fs[..|fs| - 1]);
      var p := InternField(q.0, fs[|fs| - 1]);
      (p.0, q.1 + [p.1])
  }

  function InternField(rs: seq<Record>, f: Field): (seq<Record>, Member)
    decreases f
  {
    var p := Intern(rs, f.typ);
    (p.0, Member(p.1, f.name))
  }

  /** Made of built-in types, with const only where the table can tell it apart. */
  predicate Plain(t: Type) {
    match t
    case Basic(c) => IsBuiltin(c)
    case ArrayOf(e) => Plain(e)
    case PointerTo(e) => Plain(e)
    case ConstOf(b) => Plain(b) && !(b.Basic? && Clash(b.code))
    case FunctionOf(result, ps) => Plain(result) && PlainAll(ps)
    case StructureOf(fs) => PlainFields(fs)
  }

  predicate PlainAll(ts: seq<Type>) {
    ts == [] || (PlainAll(ts[..|ts| - 1]) && Plain(ts[|ts| - 1]))
  }

  predicate PlainFields(fs: seq<Field>) {
    fs == [] || (PlainFields(fs[..|fs| - 1]) && PlainField(fs[|fs| - 1]))
  }

  predicate PlainField(f: Field) {
    Plain(f.typ)
  }

  // ------------------------------------------------------------------- one request

  lemma {:induction false} FootprintIs(rs: seq<Record>, ms: seq<Member>)
    requires Built(rs) && forall i :: 0 <= i < |ms| ==> Defined(rs, |rs|, ms[i].typ)
    ensures MembersSize(Flat(rs), ms) == FieldsFootprint(UnfoldFields(rs, |rs|, ms))
    decreases |ms|
  {
    hide Flat, Defined, Unfold, TypeSize, Footprint;
    if ms != [] {
      var n := |ms| - 1;
      FootprintIs(rs, ms[..n]);
      TypeSizeIs(rs, |rs|, ms[n].typ);
      var fs := UnfoldFields(rs, |rs|, ms);
      assert fs[..n] == UnfoldFields(rs, |rs|, ms[..n]);
    }
  }

  lemma AddKeepsSized(rs: seq<Record>, r: Record)
    requires Sized(rs) && (r.Structure? ==> r.size == Footprint(RecordMeaning(rs, |rs|, r)))
    ensures Sized(Added(rs, r))
  {
    hide RecordMeaning, Footprint, Index;
    if Find(rs, r, |rs|) == |rs| {
      var rs' := rs + [r];
      forall k | 0 <= k < |rs'| && rs'[k].Structure? ensures rs'[k].size == Footprint(UnfoldRecord(rs', k)) {
        if k < |rs| {
          RecordKept(rs, r, k);
        } else {
          MeaningKept(rs, r, k, r);
        }
      }
    }
  }

  /** The type that a request gets is defined, and means what its parts make. */
  lemma RequestIs(rs: seq<Record>, r: Record)
    requires Built(rs) && GroundedAt(rs, |rs|, r) && (r.Const? ==> !Clash(r.base))
    requires r.Structure? ==> r.size == Footprint(RecordMeaning(rs, |rs|, r))
    ensures var rs', t := Added(rs, r), TypeOf(rs, r);
      && Built(rs') && Extends(rs, rs') && Defined(rs', |rs'|, t)
      && Unfold(rs', |rs'|, t) == RecordMeaning(rs, |rs|, r)
  {
    hide RecordMeaning, Footprint, Index, Canonical, GroundedAt;
    AddKeepsSound(rs, r);
    AddKeepsSized(rs, r);
    var k := Find(rs, r, |rs|);
    var rs' := Added(rs, r);
    if k < |rs| {
      assert rs[k] == r;
      PositionIs(rs, |rs|, k);
      assert GroundedAt(rs, k, rs[k]);
      MeaningLater(rs, k, |rs|, r);
    } else {
      IndexKept(rs, r, k);
      PositionIs(rs', |rs'|, k);
      MeaningKept(rs, r, k, r);
    }
  }

  lemma ExtendsOn(rs: seq<Record>, mid: seq<Record>, more: seq<Record>)
    requires Extends(rs, mid) && Extends(mid, more)
    ensures Extends(rs, more)
  {
  }

  /** Types keep their meaning in a larger table. */
  lemma {:induction false} ExtendsKeeps(rs: seq<Record>, more: seq<Record>, t: int)
    requires Extends(rs, more) && Defined(rs, |rs|, t)
    ensures Defined(more, |more|, t) && Unfold(more, |more|, t) == Unfold(rs, |rs|, t)
    decreases |more|
  {
    hide Unfold, Index;
    if |more| == |rs| {
      assert more == rs;
    } else {
      var n := |more| - 1;
      assert more[..n][..|rs|] == rs;
      ExtendsKeeps(rs, more[..n], t);
      assert more == more[..n] + [more[n]];
      UnfoldKept(more[..n], more[n], n, t);
      DefinedKept(more[..n], more[n], n, t);
      DefinedLater(more, n, n + 1, t);
      UnfoldLater(more, n, n + 1, t);
    }
  }

  // ------------------------------------------------------------------ whole requests

  ghost predicate Grants(rs: seq<Record>, rs': seq<Record>, t: int, meaning: Type) {
    Built(rs') && Extends(rs, rs') && Defined(rs', |rs'|, t) && Unfold(rs', |rs'|, t) == meaning
  }

  /** Any type asked for comes back as an index that means that type. */
  lemma {:induction false} InternIs(rs: seq<Record>, t: Type)
    requires Built(rs) && Plain(t)
    ensures Grants(rs, Intern(rs, t).0, Intern(rs, t).1, t)
    decreases t
  {
    hide Unfold, Index, Sound, Sized, Added, TypeOf;
    match t
    case Basic(c) => PositionBuiltin(rs, |rs|, c);
    case ArrayOf(e) =>
      InternIs(rs, e);
      var p := Intern(rs, e);
      RequestIs(p.0, Array(p.1));
    case PointerTo(e) =>
      InternIs(rs, e);
      var p := Intern(rs, e);
      RequestIs(p.0, Pointer(p.1));
    case ConstOf(b) =>
      InternIs(rs, b);
      var p := Intern(rs, b);
      NoClash(p.0, p.1, b);
      RequestIs(p.0, Const(p.1));
    case FunctionOf(result, ps) => InternFunctionIs(rs, result, ps);
    case StructureOf(fs) => InternStructureIs(rs, fs);
  }

  lemma NoClash(rs: seq<Record>, t: int, b: Type)
    requires Unfold(rs, |rs|, t) == b && !(b.Basic? && Clash(b.code))
    ensures !Clash(t)
  {
    if IsBuiltin(t) {
      PositionBuiltin(rs, |rs|, t);
    }
  }

  lemma {:induction false} InternFunctionIs(rs: seq<Record>, result: Type, ps: seq<Type>)
    requires Built(rs) && Plain(result) && PlainAll(ps)
    ensures var t := FunctionOf(result, ps); Grants(rs, Intern(rs, t).0, Intern(rs, t).1, t)
    decreases FunctionOf(result, ps), 0
  {
    hide Unfold, Defined, Sound, Sized, Added, TypeOf;
    InternIs(rs, result);
    var p := Intern(rs, result);
    InternAllIs(p.0, ps);
    var q := InternAll(p.0, ps);
    ExtendsKeeps(p.0, q.0, p.1);
    assert UnfoldAll(q.0, |q.0|, q.1) == ps;
    RequestIs(q.0, Function(p.1, q.1));
  }

  lemma {:induction false} InternStructureIs(rs: seq<Record>, fs: seq<Field>)
    requires Built(rs) && PlainFields(fs)
    ensures var t := StructureOf(fs); Grants(rs, Intern(rs, t).0, Intern(rs, t).1, t)
    decreases StructureOf(fs), 0
  {
    hide Unfold, Defined, Sound, Sized, Added, TypeOf, MembersSize, Flat;
    InternFieldsIs(rs, fs);
    var q := InternFields(rs, fs);
    assert UnfoldFields(q.0, |q.0|, q.1) == fs;
    FootprintIs(q.0, q.1);
    RequestIs(q.0, Structure(MembersSize(Flat(q.0), q.1), q.1));
  }

  lemma {:induction false} InternAllIs(rs: seq<Record>, ts: seq<Type>)
    requires Built(rs) && PlainAll(ts)
    ensures var q := InternAll(rs, ts);
      && Built(q.0) && Extends(rs, q.0)
      && forall i :: 0 <= i < |ts| ==> Defined(q.0, |q.0|, q.1[i]) && Unfold(q.0, |q.0|, q.1[i]) == ts[i]
    decreases ts
  {
    hide Unfold, Defined, Sound, Sized, Intern, Plain;
    if ts != [] {
      var n := |ts| - 1;
      InternAllIs(rs, ts[..n]);
      var q := InternAll(rs, ts[..n]);
      InternIs(q.0, ts[n]);
      var p := Intern(q.0, ts[n]);
      forall i | 0 <= i < n
        ensures Defined(p.0, |p.0|, q.1[i]) && Unfold(p.0, |p.0|, q.1[i]) == ts[i]
      {
        assert Defined(q.0, |q.0|, q.1[i]);
        ExtendsKeeps(q.0, p.0, q.1[i]);
      }
    }
  }

  lemma {:induction false} InternFieldsIs(rs: seq<Record>, fs: seq<Field>)
    requires Built(rs) && PlainFields(fs)
    ensures var q := InternFields(rs, fs);
      && Built(q.0) && Extends(rs, q.0)
      && forall i :: 0 <= i < |fs| ==>
        Defined(q.0, |q.0|, q.1[i].typ) && Field(Unfold(q.0, |q.0|, q.1[i].typ), q.1[i].name) == fs[i]
    decreases fs
  {
    hide Unfold, Defined, Sound, Sized, Intern, Plain;
    if fs != [] {
      var n := |fs| - 1;
      InternFieldsIs(rs, fs[..n]);
      var q := InternFields(rs, fs[..n]);
      InternFieldIs(q.0, fs[n]);
      var p := InternField(q.0, fs[n]);
      forall i | 0 <= i < n
        ensures Defined(p.0, |p.0|, q.1[i].typ) && Field(Unfold(p.0, |p.0|, q.1[i].typ), q.1[i].name) == fs[i]
      {
        assert Defined(q.0, |q.0|, q.1[i].typ);
        ExtendsKeeps(q.0, p.0, q.1[i].typ);
      }
    }
  }

  lemma {:induction false} InternFieldIs(rs: seq<Record>, f: Field)
    requires Built(rs) && PlainField(f)
    ensures var p := InternField(rs, f); Grants(rs, p.0, p.1.typ, f.typ) && p.1.name == f.name
    decreases f, 1
  {
    InternIs(rs, f.typ);
  }

  /** Two types asked for at any two moments get one index exactly when they are the same type. */
  lemma RequestsAgree(rs: seq<Record>, t: Type, between: seq<Record>, u: Type)
    requires Built(rs) && Plain(t) && Plain(u)
    requires Built(between) && Extends(Intern(rs, t).0, between)
    ensures Intern(rs, t).1 == Intern(between, u).1 <==> t == u
  {
    hide Intern, Unfold, Defined, Sound, Sized, Plain;
    InternIs(rs, t);
    InternIs(between, u);
    var p, q := Intern(rs, t), Intern(between, u);
    ExtendsOn(p.0, between, q.0);
    ExtendsKeeps(p.0, q.0, p.1);
    IndexIsMeaning(q.0, p.1, q.1);
  }

  /** Asking again changes nothing and gets the same index. */
  lemma RequestAgain(rs: seq<Record>, r: Record)
    requires Sound(rs)
    ensures var rs' := Added(rs, r); Added(rs', r) == rs' && TypeOf(rs', r) == TypeOf(rs, r)
  {
    hide Index, Alike;
    AlikeIsEquality();
    SameTypeExactly(rs, r, r);
  }
}
