/**
  * Allocation of variables, and trees whose variables are named by displacement.
  */
module Frames {
  import opened Common
  import opened Ast

  /** First displacement of a function's own variables. */
  const DISPL_START: int := 3

  /** The allocator's state: the displacements given out so far and the next free ones. */
  datatype Frame = Frame(table: map<int, int>, displ: int, maxLocal: int, maxGlobal: int, inFunction: bool)

  function Displacement(table: map<int, int>, name: int): int {
    if name in table then table[name] else 0
  }

  function Max(a: int, b: int): int {
    if a > b then a else b
  }

  /** Allocates the next cells to a variable. */
  function Allocate(f: Frame, name: int, size: nat): Frame {
    if f.inFunction then
      f.(table := f.table[name := f.displ], displ := f.displ + size, maxLocal := Max(f.displ + size, f.maxLocal))
    else
      f.(table := f.table[name := -f.maxGlobal], maxGlobal := f.maxGlobal + size)
  }

  function AllocateDecl(d: Decl, f: Frame): Frame {
    match d
    case Scalar(x, _) => Allocate(f, x, 1)
    case Aggregate(x, size) => Allocate(f, x, size)
  }

  function AllocateDecls(ds: seq<Decl>, f: Frame): Frame {
    if ds == [] then f
    else AllocateDecl(ds[|ds| - 1], AllocateDecls(ds[..|ds| - 1], f))
  }

  function SizeOf(d: Decl): nat {
    if d.Scalar? then 1 else d.size
  }

  function NameOf(d: Decl): int {
    match d
    case Scalar(x, _) => x
    case Aggregate(x, _) => x
  }

  /** The cells of the first declarators, added up. */
  function CellsBefore(ds: seq<Decl>, k: nat): nat
    requires k <= |ds|
  {
    if k == 0 then 0 else CellsBefore(ds, k - 1) + SizeOf(ds[k - 1])
  }

  predicate DistinctNames(ds: seq<Decl>) {
    forall i, j :: 0 <= i < j < |ds| ==> NameOf(ds[i]) != NameOf(ds[j])
  }

  lemma {:induction false} CellsOfPrefix(ds: seq<Decl>, n: nat, k: nat)
    requires k <= n <= |ds|
    ensures CellsBefore(ds[..n], k) == CellsBefore(ds, k)
    decreases k
  {
    if k > 0 {
      CellsOfPrefix(ds, n, k - 1);
    }
  }

  /** Where the next variable goes, and whether cells are given out upwards. */
  function NextFree(f: Frame): int {
    if f.inFunction then f.displ else -f.maxGlobal
  }

  /**
    * Declared variables lie one behind the other in the order of their declarators,
    * upwards in a function and downwards outside; the next variable goes behind them.
    */
  lemma {:induction false} DeclaredInOrder(ds: seq<Decl>, f: Frame, k: nat)
    requires k <= |ds| && DistinctNames(ds)
    ensures var g := AllocateDecls(ds, f);
      var sign := if f.inFunction then 1 else -1;
      && g.inFunction == f.inFunction && NextFree(g) == NextFree(f) + sign * CellsBefore(ds, |ds|)
      && (k < |ds| ==>
            NameOf(ds[k]) in g.table && g.table[NameOf(ds[k])] == NextFree(f) + sign * CellsBefore(ds, k))
    decreases |ds|
  {
    if ds != [] {
      var n := |ds| - 1;
      DeclaredInOrder(ds[..n], f, if k < n then k else n);
      CellsOfPrefix(ds, n, n);
      if k < n {
        CellsOfPrefix(ds, n, k);
        assert ds[..n][k] == ds[k];
      }
    }
  }

  /** The allocator after a statement has been emitted. */
  function AllocateS(s: Stmt, f: Frame): Frame
    decreases s, 1
  {
    match s
    case Declare(ds) => AllocateDecls(ds, f)
    case Block(ss) => AllocateList(ss, f).(displ := f.displ)
    case If(_, y, n) => AllocateO(n, AllocateS(y, f))
    case While(_, b) => AllocateS(b, f)
    case Do(b, _) => AllocateS(b, f)
    case For(start, _, _, b) => AllocateS(b, AllocateO(start, f)).(displ := f.displ)
    case Switch(_, b) => AllocateS(b, f)
    case Case(_, b) => AllocateS(b, f)
    case Default(b) => AllocateS(b, f)
    case _ => f
  }

  function AllocateO(s: Option<Stmt>, f: Frame): Frame
    decreases s, 2
  {
    if s.Some? then AllocateS(s.value, f) else f
  }

  function AllocateList(ss: seq<Stmt>, f: Frame): Frame
    decreases ss, 0
  {
    if ss == [] then f
    else AllocateS(ss[|ss| - 1], AllocateList(ss[..|ss| - 1], f))
  }

  /** The cells that a statement declares for the block around it. */
  function Direct(s: Stmt): nat
    decreases s, 1
  {
    match s
    case Declare(ds) => CellsBefore(ds, |ds|)
    case If(_, y, n) => Direct(y) + (if n.Some? then Direct(n.value) else 0)
    case While(_, b) => Direct(b)
    case Do(b, _) => Direct(b)
    case Switch(_, b) => Direct(b)
    case Case(_, b) => Direct(b)
    case Default(b) => Direct(b)
    case _ => 0
  }

  lemma {:induction false} TotalCells(ds: seq<Decl>, f: Frame)
    requires f.inFunction
    ensures AllocateDecls(ds, f).inFunction && AllocateDecls(ds, f).displ == f.displ + CellsBefore(ds, |ds|)
    decreases |ds|
  {
    if ds != [] {
      var n := |ds| - 1;
      TotalCells(ds[..n], f);
      CellsOfPrefix(ds, n, n);
    }
  }

  /** A statement takes exactly the cells it declares directly: blocks and for loops give theirs back. */
  lemma {:induction false} AllocatesDirect(s: Stmt, f: Frame)
    requires f.inFunction
    ensures AllocateS(s, f).inFunction && AllocateS(s, f).displ == f.displ + Direct(s)
    decreases s, 1
  {
    match s
    case Declare(ds) => TotalCells(ds, f);
    case Block(ss) => ListStays(ss, f);
    case If(_, y, n) =>
      AllocatesDirect(y, f);
      if n.Some? {
        AllocatesDirect(n.value, AllocateS(y, f));
      }
    case While(_, b) => AllocatesDirect(b, f);
    case Do(b, _) => AllocatesDirect(b, f);
    case For(start, _, _, b) =>
      if start.Some? {
        AllocatesDirect(start.value, f);
      }
      AllocatesDirect(b, AllocateO(start, f));
    case Switch(_, b) => AllocatesDirect(b, f);
    case Case(_, b) => AllocatesDirect(b, f);
    case Default(b) => AllocatesDirect(b, f);
    case _ =>
  }

  lemma {:induction false} ListStays(ss: seq<Stmt>, f: Frame)
    requires f.inFunction
    ensures AllocateList(ss, f).inFunction
    decreases ss, 0
  {
    if ss != [] {
      ListStays(ss[..|ss| - 1], f);
      AllocatesDirect(ss[|ss| - 1], AllocateList(ss[..|ss| - 1], f));
    }
  }

  // ---------------------------------------------------------------- trees over displacements

  function ResolveE(e: Expr, table: map<int, int>): Expr {
    match e
    case Lit(_) => e
    case Var(x) => Var(Displacement(table, x))
    case Unary(op, a) => Unary(op, ResolveE(a, table))
    case Step(op, x) => Step(op, Displacement(table, x))
    case Binary(op, a, b) => Binary(op, ResolveE(a, table), ResolveE(b, table))
    case Comma(a, b) => Comma(ResolveE(a, table), ResolveE(b, table))
    case Ternary(c, a, b) => Ternary(ResolveE(c, table), ResolveE(a, table), ResolveE(b, table))
    case Assign(op, x, a) => Assign(op, Displacement(table, x), ResolveE(a, table))
  }

  function ResolveOE(e: Option<Expr>, table: map<int, int>): Option<Expr> {
    if e.Some? then Some(ResolveE(e.value, table)) else None
  }

  /** The declared name is in scope in its own initializer. */
  function ResolveDecl(d: Decl, f: Frame): Decl {
    var table := AllocateDecl(d, f).table;
    match d
    case Scalar(x, init) => Scalar(Displacement(table, x), ResolveOE(init, table))
    case Aggregate(x, size) => Aggregate(Displacement(table, x), size)
  }

  function ResolveDecls(ds: seq<Decl>, f: Frame): (r: seq<Decl>)
    ensures |r| == |ds|
  {
    if ds == [] then []
    else
      var before := ds[..|ds| - 1];
      ResolveDecls(before, f) + [ResolveDecl(ds[|ds| - 1], AllocateDecls(before, f))]
  }

  function ResolveS(s: Stmt, f: Frame): Stmt
    decreases s, 1
  {
    match s
    case Null => s
    case Effect(e) => Effect(ResolveE(e, f.table))
    case Declare(ds) => Declare(ResolveDecls(ds, f))
    case Block(ss) => Block(ResolveList(ss, f))
    case If(c, y, n) => If(ResolveE(c, f.table), ResolveS(y, f), ResolveO(n, AllocateS(y, f)))
    case While(c, b) => While(ResolveE(c, f.table), ResolveS(b, f))
    case Do(b, c) => Do(ResolveS(b, f), ResolveE(c, AllocateS(b, f).table))
    case For(start, test, next, b) =>
      var f' := AllocateO(start, f);
      For(ResolveO(start, f), ResolveOE(test, f'.table), ResolveOE(next, AllocateS(b, f').table), ResolveS(b, f'))
    case Switch(c, b) => Switch(ResolveE(c, f.table), ResolveS(b, f))
    case Case(e, b) => Case(ResolveE(e, f.table), ResolveS(b, f))
    case Default(b) => Default(ResolveS(b, f))
    case Break => s
    case Continue => s
    case Return(e) => Return(ResolveOE(e, f.table))
  }

  function ResolveO(s: Option<Stmt>, f: Frame): Option<Stmt>
    decreases s, 2
  {
    if s.Some? then Some(ResolveS(s.value, f)) else None
  }

  function ResolveList(ss: seq<Stmt>, f: Frame): (r: seq<Stmt>)
    ensures |r| == |ss|
    decreases ss, 0
  {
    if ss == [] then []
    else
      var before := ss[..|ss| - 1];
      ResolveList(before, f) + [ResolveS(ss[|ss| - 1], AllocateList(before, f))]
  }
}
