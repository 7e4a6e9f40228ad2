/**
  * Members of structure variables: where a chain of selections leads.
  */
module Members {
  import opened Common
  import opened TypeMeaning
  import opened Allocation

  /** A variable, or a part of one, that the code names by its displacement. */
  datatype Place = Place(typ: Type, displ: int)

  function Unqualified(t: Type): Type {
    if t.ConstOf? then Unqualified(t.base) else t
  }

  /** The cells of the members before one. */
  function Before(fs: seq<Field>, k: nat): nat
    requires k <= |fs|
  {
    FieldsFootprint(fs[..k])
  }

  /** Adds up the members before the selected one; selecting it moves by as much. */
  method MemberDispl(fs: seq<Field>, index: nat) returns (displ: nat)
    requires index < |fs|
    ensures displ == Before(fs, index) == Skipped(fs, index)
    ensures forall p: Place :: p.typ == StructureOf(fs) && p.displ != 0 ==> Select(p, index).value.displ == Away(p.displ, displ)
  {
    BeforeIsSkipped(fs, index);
    displ := 0;
    for i := 0 to index
      invariant displ == Before(fs, i)
    {
      BeforeNext(fs, i);
      displ := displ + Footprint(fs[i].typ);
    }
  }

  /** Selecting a member: locals grow upwards, globals downwards. */
  function Select(p: Place, k: nat): Option<Place> {
    var t := Unqualified(p.typ);
    if t.StructureOf? && k < |t.fields| then
      var d := Before(t.fields, k);
      Some(Place(t.fields[k].typ, if p.displ > 0 then p.displ + d else p.displ - d))
    else None
  }

  /** A chain of selections. */
  function Follow(p: Place, path: seq<nat>): Option<Place>
    decreases |path|
  {
    if path == [] then Some(p)
    else
      match Select(p, path[0])
      case None => None
      case Some(q) => Follow(q, path[1..])
  }

  // -------------------------------------------------------------------- the layout

  /** The cells that lie between the beginning of a structure and one of its members, added up. */
  function Skipped(fs: seq<Field>, k: nat): nat
    requires k <= |fs|
  {
    if k == 0 then 0 else Skipped(fs, k - 1) + Footprint(fs[k - 1].typ)
  }

  lemma {:induction false} BeforeIsSkipped(fs: seq<Field>, k: nat)
    requires k <= |fs|
    ensures Before(fs, k) == Skipped(fs, k)
    decreases k
  {
    if k > 0 {
      BeforeIsSkipped(fs, k - 1);
      BeforeNext(fs, k - 1);
    }
  }

  /** Away from the other kind of variable: upwards for locals, downwards for globals. */
  function Away(displ: int, cells: int): int {
    if displ > 0 then displ + cells else displ - cells
  }

  /** The first member lies where its structure does, and each next one begins where the one before it ends. */
  lemma MembersInOrder(p: Place, k: nat)
    requires p.displ != 0 && Unqualified(p.typ).StructureOf? && k < |Unqualified(p.typ).fields|
    ensures Select(p, k).Some? && Select(p, k).value.typ == Unqualified(p.typ).fields[k].typ
    ensures k == 0 ==> Select(p, k).value.displ == p.displ
    ensures k > 0 ==>
      && Select(p, k - 1).Some?
      && var q := Select(p, k - 1).value; Select(p, k).value.displ == Away(q.displ, Footprint(q.typ))
  {
    var fs := Unqualified(p.typ).fields;
    if k > 0 {
      BeforeNext(fs, k - 1);
    }
  }

  /** Exactly the chains that name members have a place. */
  predicate Names(t: Type, path: seq<nat>)
    decreases |path|
  {
    path == [] ||
    (&& Unqualified(t).StructureOf? && path[0] < |Unqualified(t).fields|
     && Names(Unqualified(t).fields[path[0]].typ, path[1..]))
  }

  /** The cells that a chain passes over, at each step those of the members before the selected one. */
  function Offset(t: Type, path: seq<nat>): nat
    requires Names(t, path)
    decreases |path|
  {
    if path == [] then 0
    else
      var fs := Unqualified(t).fields;
      Skipped(fs, path[0]) + Offset(fs[path[0]].typ, path[1..])
  }

  function Part(t: Type, path: seq<nat>): Type
    requires Names(t, path)
    decreases |path|
  {
    if path == [] then t else Part(Unqualified(t).fields[path[0]].typ, path[1..])
  }

  /** A chain of selections leads to its part of the variable, behind the cells that it passes over. */
  lemma {:induction false} PathLands(p: Place, path: seq<nat>)
    requires p.displ != 0
    ensures Follow(p, path).Some? <==> Names(p.typ, path)
    ensures Names(p.typ, path) ==>
      Follow(p, path) == Some(Place(Part(p.typ, path), Away(p.displ, Offset(p.typ, path))))
    decreases |path|
  {
    hide Footprint, Before;
    if path != [] && Unqualified(p.typ).StructureOf? && path[0] < |Unqualified(p.typ).fields| {
      BeforeIsSkipped(Unqualified(p.typ).fields, path[0]);
      PathLands(Select(p, path[0]).value, path[1..]);
    }
  }

  /** The cells of one place are among those of another. */
  predicate Within(q: Place, p: Place) {
    && ((q.displ > 0) == (p.displ > 0))
    && Start(p.displ) <= Start(q.displ) && Start(q.displ) + Footprint(q.typ) <= Start(p.displ) + Footprint(p.typ)
  }

  lemma {:induction false} UnqualifiedSize(t: Type)
    ensures Footprint(Unqualified(t)) == Footprint(t)
    decreases t
  {
    if t.ConstOf? {
      UnqualifiedSize(t.base);
    }
  }

  lemma BeforeNext(fs: seq<Field>, k: nat)
    requires k < |fs|
    ensures Before(fs, k + 1) == Before(fs, k) + Footprint(fs[k].typ)
  {
    assert fs[..k + 1][..k] == fs[..k];
    assert fs[..k + 1][k] == fs[k];
    assert FieldFootprint(fs[k]) == Footprint(fs[k].typ);
  }

  lemma {:induction false} BeforeGrows(fs: seq<Field>, j: nat, k: nat)
    requires j < k <= |fs|
    ensures Before(fs, j) + Footprint(fs[j].typ) <= Before(fs, k)
    decreases k
  {
    BeforeNext(fs, k - 1);
    if j < k - 1 {
      BeforeGrows(fs, j, k - 1);
    }
  }

  /** A member lies inside its structure. */
  lemma SelectWithin(p: Place, k: nat)
    requires p.displ != 0 && Select(p, k).Some?
    ensures Within(Select(p, k).value, p) && Select(p, k).value.displ != 0
  {
    var fs := Unqualified(p.typ).fields;
    UnqualifiedSize(p.typ);
    assert fs[..|fs|] == fs;
    if k + 1 <= |fs| {
      BeforeGrows(fs, k, |fs|);
    }
  }

  /** Every chain of selections stays inside the variable. */
  lemma {:induction false} PathInside(p: Place, path: seq<nat>)
    requires p.displ != 0 && Follow(p, path).Some?
    ensures Within(Follow(p, path).value, p)
    decreases |path|
  {
    hide Select;
    if path != [] {
      SelectWithin(p, path[0]);
      PathInside(Select(p, path[0]).value, path[1..]);
    }
  }

  predicate IsPrefix(a: seq<nat>, b: seq<nat>) {
    |a| <= |b| && b[..|a|] == a
  }

  /** Two chains neither of which continues the other lead to cells apart. */
  lemma {:induction false} PathsApart(p: Place, a: seq<nat>, b: seq<nat>)
    requires p.displ != 0 && Follow(p, a).Some? && Follow(p, b).Some? && !IsPrefix(a, b) && !IsPrefix(b, a)
    ensures var q, r := Follow(p, a).value, Follow(p, b).value;
      Apart(q.displ, Footprint(q.typ), r.displ, Footprint(r.typ))
    decreases |a|
  {
    hide Select, Footprint;
    assert a != [] && b != [];
    var q, r := Select(p, a[0]).value, Select(p, b[0]).value;
    SelectWithin(p, a[0]);
    SelectWithin(p, b[0]);
    if a[0] == b[0] {
      TailsApart(a, b);
      PathsApart(q, a[1..], b[1..]);
    } else {
      PathInside(q, a[1..]);
      PathInside(r, b[1..]);
      MembersApart(p, a[0], b[0]);
    }
  }

  lemma TailsApart(a: seq<nat>, b: seq<nat>)
    requires a != [] && b != [] && a[0] == b[0] && !IsPrefix(a, b) && !IsPrefix(b, a)
    ensures !IsPrefix(a[1..], b[1..]) && !IsPrefix(b[1..], a[1..])
  {
  }

  lemma MembersApart(p: Place, j: nat, k: nat)
    requires p.displ != 0 && j != k && Select(p, j).Some? && Select(p, k).Some?
    ensures var q, r := Select(p, j).value, Select(p, k).value;
      (q.displ > 0) == (r.displ > 0) == (p.displ > 0)
      && (Start(q.displ) + Footprint(q.typ) <= Start(r.displ) || Start(r.displ) + Footprint(r.typ) <= Start(q.displ))
  {
    var fs := Unqualified(p.typ).fields;
    if j < k {
      BeforeGrows(fs, j, k);
    } else {
      BeforeGrows(fs, k, j);
    }
  }

  /** Members of different variables in scope never share a cell. */
  lemma VariablesApart(p: Place, a: seq<nat>, q: Place, b: seq<nat>)
    requires p.displ != 0 && q.displ != 0 && Follow(p, a).Some? && Follow(q, b).Some?
    requires Apart(p.displ, Footprint(p.typ), q.displ, Footprint(q.typ))
    ensures var x, y := Follow(p, a).value, Follow(q, b).value;
      Apart(x.displ, Footprint(x.typ), y.displ, Footprint(y.typ))
  {
    hide Follow, Footprint;
    PathInside(p, a);
    PathInside(q, b);
  }
}
