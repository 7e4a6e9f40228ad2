/**
  * The table of types as the program keeps it: one vector that grows at its end and
  * is cut back when the record at its end turns out to be there already.
  */
module TypeTable {
  import opened Types
  import opened TypeMeaning
  import opened TypeRequests

  class TypeTable {
    var types: seq<int>
    var startType: int
    ghost var records: seq<Record>

    ghost predicate Valid()
      reads this
    {
      types == Flat(records) && startType == Link(records) && Sound(records)
    }

    /** The table starts with the structure of a message. */
    constructor (thread: int, data: int)
      ensures Valid() && records == [Message(thread, data)] && Index(records, 0) == 2
    {
      types := [0, 0, TYPE_STRUCTURE, 2, 4, TYPE_INTEGER, thread, TYPE_INTEGER, data];
      startType := 1;
      records := [Message(thread, data)];
      new;
      MessageLaid(thread, data);
    }

    /** Compares two records cell by cell; const records by what they qualify. */
    method TypeIsEqual(first: int, second: int, ghost rs: seq<Record>) returns (equal: bool)
      requires types == Flat(rs) && Grounded(rs) && Defined(rs, |rs|, first)
      ensures equal == EqualAt(types, first, second)
      decreases first + 10
    {
      hide Flat, Grounded, Index;
      if At(types, first) != At(types, second) {
        return false;
      }
      if At(types, first) == TYPE_CONST {
        BaseDefined(rs, first);
        equal := TypeIsEqual(Nth(types, first, 1), Nth(types, second, 1), rs);
        return;
      }
      var length := 1;
      if At(types, first) == TYPE_STRUCTURE || At(types, first) == TYPE_FUNCTION {
        length := 2 + Nth(types, first, 2);
      }
      var i := 1;
      while i <= length
        invariant 1 <= i
        invariant forall k :: 1 <= k < i ==> Nth(types, first, k) == Nth(types, second, k)
      {
        if Nth(types, first, i) != Nth(types, second, i) {
          return false;
        }
        i := i + 1;
      }
      return true;
    }

    /** Lays a record out at the end of the vector. */
    method Append(record: seq<int>)
      modifies this`types, this`startType
      ensures types == old(types) + [old(startType)] + record && startType == |old(types)|
    {
      var at := |types|;
      types := types + [startType];
      startType := at;
      for i := 0 to |record|
        invariant types == old(types) + [old(startType)] + record[..i] && startType == |old(types)|
      {
        types := types + [record[i]];
        assert record[..i] + [record[i]] == record[..i + 1];
        Joined(old(types), old(startType), record[..i], record[i]);
      }
    }

    /** The type of a record: an old one if it is there already, and then the table is as before. */
    method TypeAdd(record: seq<int>, ghost r: Record) returns (t: int)
      requires Valid() && record == Cells(r) && GroundedAt(records, |records|, r)
      modifies this
      ensures Valid() && records == Added(old(records), r) && t == TypeOf(old(records), r)
      ensures records == old(records) ==> types == old(types) && startType == old(startType)
    {
      hide Flat, Index, GroundedAt, Alike, Canonical;
      Append(record);
      ghost var rs := records;
      ghost var all := records + [r];
      Appended(rs, r);
      AddGrounded(rs, r);
      ghost var k: int := |rs|;
      var older := At(types, startType);
      while older != 0
        invariant types == Flat(all) && startType == Link(all) == Index(rs, |rs|) - 1 && records == rs
        invariant 0 <= k <= |rs| && older == Link(rs[..k])
        invariant forall j :: k <= j < |rs| ==> !Alike(rs[j], r)
        decreases k
      {
        LinkIs(rs, k);
        OlderIs(rs, r, k - 1);
        assert Defined(all, |all|, startType + 1);
        var same := TypeIsEqual(startType + 1, older + 1, all);
        if same {
          var from := startType;
          startType := At(types, from);
          types := types[..from];
          FoundAt(rs, r, k - 1);
          return older + 1;
        }
        older := At(types, older);
        k := k - 1;
      }
      LinkIs(rs, k);
      FoundNone(rs, r);
      records := all;
      AddKeepsSound(rs, r);
      t := startType + 1;
    }

    method TypeArray(element: int) returns (t: int)
      requires Valid() && Defined(records, |records|, element)
      modifies this
      ensures Valid() && records == Added(old(records), Array(element)) && t == TypeOf(old(records), Array(element))
    {
      t := TypeAdd([TYPE_ARRAY, element], Array(element));
    }

    method TypePointer(element: int) returns (t: int)
      requires Valid() && Defined(records, |records|, element)
      modifies this
      ensures Valid() && records == Added(old(records), Pointer(element)) && t == TypeOf(old(records), Pointer(element))
    {
      t := TypeAdd([TYPE_POINTER, element], Pointer(element));
    }

    method TypeConst(base: int) returns (t: int)
      requires Valid() && Defined(records, |records|, base)
      modifies this
      ensures Valid() && records == Added(old(records), Const(base)) && t == TypeOf(old(records), Const(base))
    {
      t := TypeAdd([TYPE_CONST, base], Const(base));
    }

    /** Lays out a structure, whose size is the sum of the sizes of its members; the record buffer has 100 items. */
    method TypeStructure(members: seq<int>, names: seq<int>) returns (t: int)
      requires Valid() && |members| == |names| && 3 + 2 * |members| <= 100
      requires forall i :: 0 <= i < |members| ==> Defined(records, |records|, members[i])
      modifies this
      ensures Valid()
      ensures var r := Laid(old(types), members, names);
        records == Added(old(records), r) && t == TypeOf(old(records), r)
    {
      hide Flat, Link, Sound, Defined, MemberCells, Added, TypeOf, TypeSize;
      var local := [];
      var displ := 0;
      for i := 0 to |members|
        invariant Valid() && types == old(types) && records == old(records)
        invariant local == MemberCells(MembersOf(members[..i], names[..i]))
        invariant displ == MembersSize(types, MembersOf(members[..i], names[..i]))
      {
        local := local + [members[i], names[i]];
        displ := displ + TypeSize(types, members[i]);
        OneMore(types, members, names, i);
      }
      WholeLists(members, names);
      var header := [TYPE_STRUCTURE, displ, 2 * |members|];
      t := TypeAdd(header + local, Laid(types, members, names));
    }
  }

  function MembersOf(members: seq<int>, names: seq<int>): (ms: seq<Member>)
    requires |members| == |names|
    ensures |ms| == |members|
  {
    seq(|members|, i requires 0 <= i < |members| => Member(members[i], names[i]))
  }

  /** The record of a structure with these members. */
  function Laid(types: seq<int>, members: seq<int>, names: seq<int>): Record
    requires |members| == |names|
  {
    var ms := MembersOf(members, names);
    Structure(MembersSize(types, ms), ms)
  }

  lemma WholeLists(members: seq<int>, names: seq<int>)
    requires |members| == |names|
    ensures members[..|members|] == members && names[..|members|] == names
  {
  }

  lemma OneMore(types: seq<int>, members: seq<int>, names: seq<int>, i: nat)
    requires |members| == |names| && i < |members|
    ensures var before, after := MembersOf(members[..i], names[..i]), MembersOf(members[..i + 1], names[..i + 1]);
      && MemberCells(after) == MemberCells(before) + [members[i], names[i]]
      && MembersSize(types, after) == MembersSize(types, before) + TypeSize(types, members[i])
  {
    hide TypeSize;
    var before, after := MembersOf(members[..i], names[..i]), MembersOf(members[..i + 1], names[..i + 1]);
    assert after == before + [Member(members[i], names[i])];
    assert after[..i] == before;
  }

  function Message(thread: int, data: int): Record {
    Structure(2, [Member(TYPE_INTEGER, thread), Member(TYPE_INTEGER, data)])
  }

  lemma MessageLaid(thread: int, data: int)
    ensures var rs := [Message(thread, data)];
      && Flat(rs) == [0, 0, TYPE_STRUCTURE, 2, 4, TYPE_INTEGER, thread, TYPE_INTEGER, data]
      && Link(rs) == 1 && Index(rs, 0) == 2 && Sound(rs)
  {
    var rs := [Message(thread, data)];
    assert rs[..0] == [];
    var ms := rs[0].members;
    assert MemberCells(ms) == [ms[0].typ, ms[0].name, ms[1].typ, ms[1].name];
    assert GroundedAt(rs, 0, rs[0]);
  }

  lemma Joined(a: seq<int>, link: int, b: seq<int>, x: int)
    ensures (a + [link] + b) + [x] == a + [link] + (b + [x])
  {
  }

  lemma BaseDefined(rs: seq<Record>, first: int)
    requires Grounded(rs) && Defined(rs, |rs|, first) && At(Flat(rs), first) == TYPE_CONST
    ensures var b := Nth(Flat(rs), first, 1); -10 < b < first && 0 <= first && Defined(rs, |rs|, b)
  {
    hide Flat, Index;
    assert !IsBuiltin(first);
    var k :| 0 <= k < |rs| && first == Index(rs, k);
    assert GroundedAt(rs, k, rs[k]);
    ClassAt(rs, k);
    BaseBefore(rs, k);
    assert Cells(rs[k])[1] == rs[k].base;
    DefinedLater(rs, k, |rs|, rs[k].base);
  }

  lemma Appended(rs: seq<Record>, r: Record)
    ensures var all := rs + [r];
      && Flat(all) == Flat(rs) + [Link(rs)] + Cells(r) && Link(all) == |Flat(rs)|
      && At(Flat(all), |Flat(rs)|) == Link(rs) && Flat(all)[..|Flat(rs)|] == Flat(rs)
      && Index(rs, |rs|) == Index(all, |rs|) == |Flat(rs)| + 1 && rs[..|rs|] == rs && all[..|rs|] == rs
  {
    hide Cells;
    var all := rs + [r];
    assert all[..|rs|] == rs && rs[..|rs|] == rs;
  }

  lemma LinkIs(rs: seq<Record>, k: nat)
    requires k <= |rs|
    ensures (Link(rs[..k]) == 0) == (k == 0) && (k > 0 ==> Link(rs[..k]) == Index(rs, k - 1) - 1)
  {
    if k > 0 {
      assert rs[..k][..k - 1] == rs[..k - 1];
    }
  }

  /** What the loop compares: the new record and the one at position j. */
  lemma OlderIs(rs: seq<Record>, r: Record, j: nat)
    requires Sound(rs) && GroundedAt(rs, |rs|, r) && j < |rs|
    ensures var all := rs + [r];
      && (EqualAt(Flat(all), Index(rs, |rs|), Index(rs, j)) <==> Alike(r, rs[j]))
      && At(Flat(all), Index(rs, j) - 1) == Link(rs[..j])
      && Index(all, |rs|) == Index(rs, |rs|)
      && (Alike(r, rs[j]) <==> Alike(rs[j], r))
  {
    hide Flat, EqualAt, Cells, GroundedAt, Canonical, Index;
    var all := rs + [r];
    AddGrounded(rs, r);
    assert all[..|all| - 1] == rs;
    Compares(all, |rs|, j);
    IndexKept(rs, r, |rs|);
    IndexKept(rs, r, j);
    LinkAt(all, j);
    assert all[..j] == rs[..j];
  }

  lemma FoundAt(rs: seq<Record>, r: Record, j: nat)
    requires Sound(rs) && j < |rs| && Alike(rs[j], r) && forall i :: j < i < |rs| ==> !Alike(rs[i], r)
    ensures Added(rs, r) == rs && TypeOf(rs, r) == Index(rs, j)
  {
    assert Find(rs, r, |rs|) == j;
  }

  lemma FoundNone(rs: seq<Record>, r: Record)
    requires forall i :: 0 <= i < |rs| ==> !Alike(rs[i], r)
    ensures Added(rs, r) == rs + [r] && TypeOf(rs, r) == Index(rs, |rs|)
  {
  }

  /** The table that the compiler starts with is one it could have built. */
  lemma StartBuilt(thread: int, data: int)
    ensures Built([Message(thread, data)])
  {
    hide Index;
    var rs := [Message(thread, data)];
    MessageLaid(thread, data);
    var fs := UnfoldFields(rs, 0, rs[0].members);
    assert fs[..1][..0] == [] && fs[..1] + [fs[1]] == fs;
    assert fs[0].typ == Unfold(rs, 0, TYPE_INTEGER) == Basic(TYPE_INTEGER);
    assert fs[1].typ == Basic(TYPE_INTEGER);
    TwoFields(fs);
  }

  lemma TwoFields(fs: seq<Field>)
    requires |fs| == 2 && fs[0].typ == Basic(TYPE_INTEGER) && fs[1].typ == Basic(TYPE_INTEGER)
    ensures FieldsFootprint(fs) == 2
  {
    var one := fs[..1];
    assert one[..0] == [] && one[0] == fs[0];
    assert FieldFootprint(one[0]) == 1 && FieldFootprint(fs[1]) == 1;
    assert FieldsFootprint(one[..0]) == 0;
    assert FieldsFootprint(one) == 1;
  }
}
