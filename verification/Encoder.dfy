/**
  * The encoder that turns trees into code for the virtual machine in one pass.
  *
  * Jumps whose target is not yet known are linked into lists that run through the
  * code itself.  Every method is proved against the compiler that knows all
  * targets: the memory it leaves is the threaded form of that compiler's code.
  */
module Encoder {
  import opened Common
  import opened Ast
  import opened Instructions
  import opened Codegen
  import opened Threading
  import opened Patching
  import opened Frames
  import opened Emitting
  import opened EmissionRules
  import opened Confinement
  import opened Functions

  class Encoder {
    var memory: seq<int>
    var displacements: map<int, int>
    var addrCond: nat
    var addrCase: nat
    var addrBreak: nat
    var displ: int
    var maxLocalDispl: int
    var maxGlobalDispl: int
    var inFunction: bool

    /** The first four cells of the memory are reserved. */
    constructor ()
      ensures Valid()
      ensures Emitted() == Emission([0, 0, 0, 0], 0, 0, 0)
      ensures Allocator() == Frame(map[], 0, 0, DISPL_START, false)
    {
      memory := [0, 0, 0, 0];
      displacements := map[];
      addrCond, addrCase, addrBreak := 0, 0, 0;
      displ, maxLocalDispl, maxGlobalDispl := 0, 0, DISPL_START;
      inFunction := false;
    }

    function Emitted(): Emission
      reads `memory, `addrCond, `addrCase, `addrBreak
    {
      Emission(memory, addrBreak, addrCond, addrCase)
    }

    function Allocator(): Frame
      reads `displacements, `displ, `maxLocalDispl, `maxGlobalDispl, `inFunction
    {
      Frame(displacements, displ, maxLocalDispl, maxGlobalDispl, inFunction)
    }

    predicate Valid()
      reads `memory, `addrCond, `addrCase, `addrBreak
    {
      Ready(Emitted())
    }

    // -------------------------------------------------------------- memory

    method MemAdd(value: int)
      modifies `memory
      ensures memory == old(memory) + [value]
    {
      memory := memory + [value];
    }

    method MemReserve() returns (index: nat)
      modifies `memory
      ensures memory == old(memory) + [0] && index == |old(memory)|
    {
      index := |memory|;
      memory := memory + [0];
    }

    method MemSet(index: nat, value: int)
      requires index < |memory|
      modifies `memory
      ensures memory == old(memory)[index := value]
    {
      memory := memory[index := value];
    }

    // -------------------------------------------------------------- patching

    /** Points the waiting continues at the start of a loop; the list ends at that address. */
    method AddrBeginCondition(addr: nat)
      requires Chain(memory, addrCond, addr)
      modifies `memory, `addrCond
      ensures memory == Repoint(old(memory), old(addrCond), addr, addr)
      ensures addrCond == addr
    {
      while addrCond != addr
        invariant Chain(memory, addrCond, addr)
        invariant Repoint(memory, addrCond, addr, addr) == Repoint(old(memory), old(addrCond), addr, addr)
        decreases addrCond
      {
        var ref := memory[addrCond];
        ChainFrame(memory, addrCond, addr, ref, addr);
        MemSet(addrCond, addr);
        addrCond := ref;
      }
    }

    /** Points the waiting continues at the next cell. */
    method AddrEndCondition()
      requires Chain(memory, addrCond, 0)
      modifies `memory, `addrCond
      ensures memory == Repoint(old(memory), old(addrCond), 0, |old(memory)|)
      ensures addrCond == 0
    {
      while addrCond != 0
        invariant |memory| == |old(memory)|
        invariant Chain(memory, addrCond, 0)
        invariant Repoint(memory, addrCond, 0, |memory|) == Repoint(old(memory), old(addrCond), 0, |memory|)
        decreases addrCond
      {
        var ref := memory[addrCond];
        ChainFrame(memory, addrCond, |memory|, ref, 0);
        MemSet(addrCond, |memory|);
        addrCond := ref;
      }
    }

    /** Points the waiting breaks at the next cell. */
    method AddrEndBreak()
      requires Chain(memory, addrBreak, 0)
      modifies `memory, `addrBreak
      ensures memory == Repoint(old(memory), old(addrBreak), 0, |old(memory)|)
      ensures addrBreak == 0
    {
      while addrBreak != 0
        invariant |memory| == |old(memory)|
        invariant Chain(memory, addrBreak, 0)
        invariant Repoint(memory, addrBreak, 0, |memory|) == Repoint(old(memory), old(addrBreak), 0, |memory|)
        decreases addrBreak
      {
        var ref := memory[addrBreak];
        ChainFrame(memory, addrBreak, |memory|, ref, 0);
        MemSet(addrBreak, |memory|);
        addrBreak := ref;
      }
    }

    // -------------------------------------------------------------- variables

    method DisplacementsAdd(name: int, size: nat) returns (result: int)
      modifies `displacements, `displ, `maxLocalDispl, `maxGlobalDispl
      ensures Allocator() == Allocate(old(Allocator()), name, size)
      ensures result == Displacement(displacements, name)
    {
      result := displ;
      if inFunction {
        displ := displ + size;
        maxLocalDispl := Max(displ, maxLocalDispl);
      } else {
        result := -maxGlobalDispl;
        maxGlobalDispl := maxGlobalDispl + size;
      }
      displacements := displacements[name := result];
    }

    // -------------------------------------------------------------- expressions

    method EmitExpression(e: Expr)
      modifies `memory
      ensures memory == old(memory) + CodeE(ResolveE(e, displacements), |old(memory)|)
      decreases e, 1
    {
      hide CodeE, ResolveE;
      ghost var front := memory;
      CodeOfSimple(e, displacements, |front|);
      match e
      case Lit(v) =>
        MemAdd(IC_LI);
        MemAdd(v);
        JoinPair(front, IC_LI, v);
      case Var(x) =>
        MemAdd(IC_LOAD);
        MemAdd(Displacement(displacements, x));
        JoinPair(front, IC_LOAD, Displacement(displacements, x));
      case Unary(op, a) =>
        EmitExpression(a);
        MemAdd(UnaryCode(op));
      case Step(op, x) =>
        MemAdd(StepCode(op));
        MemAdd(Displacement(displacements, x));
        JoinPair(front, StepCode(op), Displacement(displacements, x));
      case Binary(_, _, _) =>
        EmitBinary(e);
      case Comma(a, b) =>
        EmitVoid(a);
        EmitExpression(b);
      case Ternary(_, _, _) =>
        EmitTernary(e);
      case Assign(op, x, a) =>
        EmitExpression(a);
        MemAdd(AssignCode(op));
        MemAdd(Displacement(displacements, x));
        JoinTail(front, CodeE(ResolveE(a, displacements), |front|), AssignCode(op), Displacement(displacements, x));
    }

    method EmitBinary(e: Expr)
      requires e.Binary?
      modifies `memory
      ensures memory == old(memory) + CodeE(ResolveE(e, displacements), |old(memory)|)
      decreases e, 0
    {
      hide CodeE, ResolveE;
      ghost var front := memory;
      EmitExpression(e.left);
      ghost var l := CodeE(ResolveE(e.left, displacements), |front|);
      if IsLogical(e.bop) {
        var jump := if e.bop == LogAnd then IC_BE0 else IC_BNE0;
        MemAdd(IC_DUPLICATE);
        MemAdd(jump);
        var addr := MemReserve();
        EmitExpression(e.right);
        ghost var r := CodeE(ResolveE(e.right, displacements), |front| + |l| + 3);
        SetReserved(front + l + [IC_DUPLICATE] + [jump], 0, |memory| + 1, r);
        MemSet(addr, |memory| + 1);
        MemAdd(BinaryCode(e.bop));
        CodeOfLogical(e, displacements, |front|);
        JoinLogical(front, l, IC_DUPLICATE, jump, |front| + |l| + |r| + 4, r, BinaryCode(e.bop));
      } else {
        EmitExpression(e.right);
        MemAdd(BinaryCode(e.bop));
        CodeOfArithmetic(e, displacements, |front|);
      }
    }

    method EmitTernary(e: Expr)
      requires e.Ternary?
      modifies `memory
      ensures memory == old(memory) + CodeE(ResolveE(e, displacements), |old(memory)|)
      decreases e, 0
    {
      hide CodeE, ResolveE;
      ghost var front := memory;
      EmitExpression(e.cond);
      ghost var t := CodeE(ResolveE(e.cond, displacements), |front|);
      MemAdd(IC_BE0);
      var addr := MemReserve();
      EmitExpression(e.yes);
      ghost var l := CodeE(ResolveE(e.yes, displacements), |front| + |t| + 2);
      ghost var noAt := |memory| + 2;
      SetReserved(front + t + [IC_BE0], 0, noAt, l);
      MemSet(addr, |memory| + 2);
      MemAdd(IC_B);
      addr := MemReserve();
      EmitExpression(e.no);
      ghost var r := CodeE(ResolveE(e.no, displacements), noAt);
      SetReserved(front + t + [IC_BE0] + [noAt] + l + [IC_B], 0, |memory|, r);
      MemSet(addr, |memory|);
      CodeOfTernary(e, displacements, |front|);
      JoinBranches(front, t, IC_BE0, noAt, l, IC_B, |memory|, r);
    }

    /** Emits an expression for its effects: the last instruction loses its result. */
    method EmitVoid(e: Expr)
      modifies `memory
      ensures memory == old(memory) + CodeV(ResolveE(e, displacements), |old(memory)|)
      decreases e, 2
    {
      hide CodeE, ResolveE;
      VoidOfResolved(e, displacements, |memory|);
      if !e.Var? {
        EmitExpression(e);
        ghost var code := CodeE(ResolveE(e, displacements), |old(memory)|);
        var index := if memory[|memory| - 1] < MIN_INSTRUCTION_CODE then |memory| - 2 else |memory| - 1;
        var operation := memory[index];
        DropBehind(old(memory), code);
        MemSet(index, ToVoid(operation));
      }
    }

    // -------------------------------------------------------------- declarations

    method EmitVariableDeclaration(d: Decl)
      modifies `memory, `displacements, `displ, `maxLocalDispl, `maxGlobalDispl
      ensures Allocator() == AllocateDecl(d, old(Allocator()))
      ensures memory == old(memory) + CodeD(ResolveDecl(d, old(Allocator())), |old(memory)|)
    {
      match d
      case Scalar(x, init) =>
        var result := DisplacementsAdd(x, 1);
        if init.Some? {
          EmitExpression(init.value);
          MemAdd(IC_ASSIGN_V);
          MemAdd(result);
        }
      case Aggregate(x, size) =>
        var _ := DisplacementsAdd(x, size);
    }

    method EmitDeclarationStatement(ds: seq<Decl>)
      modifies `memory, `displacements, `displ, `maxLocalDispl, `maxGlobalDispl
      ensures Allocator() == AllocateDecls(ds, old(Allocator()))
      ensures memory == old(memory) + CodeDecls(ResolveDecls(ds, old(Allocator())), |old(memory)|)
    {
      hide AllocateDecls, ResolveDecls, CodeDecls, AllocateDecl, ResolveDecl, CodeD, CodeE, ResolveE;
      ghost var f, front := Allocator(), memory;
      var i := 0;
      DeclsNone(f, |front|);
      assert ds[..0] == [];
      assert front + [] == front;
      while i < |ds|
        invariant 0 <= i <= |ds|
        invariant Allocator() == AllocateDecls(ds[..i], f)
        invariant memory == front + CodeDecls(ResolveDecls(ds[..i], f), |front|)
      {
        ghost var before := CodeDecls(ResolveDecls(ds[..i], f), |front|);
        ghost var f' := AllocateDecls(ds[..i], f);
        EmitVariableDeclaration(ds[i]);
        DeclsNext(ds, i, f, |front|);
        ghost var code := CodeD(ResolveDecl(ds[i], f'), |front| + |before|);
        assert front + before + code == front + (before + code);
        i := i + 1;
      }
      assert ds[..i] == ds;
    }

    // -------------------------------------------------------------- statements

    /** The case test that waits, when there is one, goes on at the next cell. */
    method PatchCase()
      requires addrCase < |memory|
      modifies `memory
      ensures memory == Patched(old(memory), addrCase, Some(|old(memory)|))
    {
      if addrCase != 0 {
        MemSet(addrCase, |memory|);
      }
    }

    method EmitCase(s: Stmt)
      requires Valid() && s.Case?
      modifies this
      ensures Allocator() == AllocateS(s, old(Allocator()))
      ensures Emitted() == Emits(old(Emitted()), ResolveS(s, old(Allocator())))
      decreases s, 0
    {
      hide Emits, After, ResolveS, AllocateS, ResolveE, CodeE;
      ResolvedCase(s, Allocator());
      ghost var em := Emitted();
      EmitsCase(em, ResolveS(s, Allocator()));
      PatchCase();
      EmitCaseTest(s.tag);
      EmitStatement(s.labelled);
    }

    /** The test of a case label, which waits for the next label. */
    method EmitCaseTest(tag: Expr)
      modifies `memory, `addrCase
      ensures memory == old(memory) + ([IC_DUPLICATE] + CodeE(ResolveE(tag, displacements), |old(memory)| + 1) + [IC_EQ, IC_BE0] + [0])
      ensures addrCase == |memory| - 1
    {
      hide ResolveE, CodeE;
      MemAdd(IC_DUPLICATE);
      EmitExpression(tag);
      MemAdd(IC_EQ);
      MemAdd(IC_BE0);
      addrCase := MemReserve();
      JoinTest(old(memory), IC_DUPLICATE, CodeE(ResolveE(tag, displacements), |old(memory)| + 1), IC_EQ, IC_BE0, 0);
    }

    method EmitDefault(s: Stmt)
      requires Valid() && s.Default?
      modifies this
      ensures Allocator() == AllocateS(s, old(Allocator()))
      ensures Emitted() == Emits(old(Emitted()), ResolveS(s, old(Allocator())))
      decreases s, 0
    {
      hide Emits, After;
      EmitsDefault(Emitted(), ResolveS(s, Allocator()));
      PatchCase();
      addrCase := 0;
      EmitStatement(s.labelled);
    }

    method EmitCompound(ss: seq<Stmt>)
      requires Valid()
      modifies this
      ensures Allocator() == AllocateList(ss, old(Allocator())).(displ := old(displ))
      ensures Emitted() == EmitsList(old(Emitted()), ResolveList(ss, old(Allocator())))
      decreases ss, 0
    {
      hide Emits, EmitsList, After;
      ghost var em, f := Emitted(), Allocator();
      EmitsEmptyList(em);
      var scopeDisplacement := displ;
      var i := 0;
      while i < |ss|
        invariant 0 <= i <= |ss|
        invariant Allocator() == AllocateList(ss[..i], f)
        invariant Emitted() == EmitsList(em, ResolveList(ss[..i], f))
      {
        EmitStatement(ss[i]);
        assert ss[..i + 1][..i] == ss[..i];
        EmitsNext(em, ResolveList(ss[..i], f), ResolveS(ss[i], AllocateList(ss[..i], f)));
        i := i + 1;
      }
      assert ss[..i] == ss;
      displ := scopeDisplacement;
    }

    method EmitIf(s: Stmt)
      requires Valid() && s.If?
      modifies this
      ensures Allocator() == AllocateS(s, old(Allocator()))
      ensures Emitted() == Emits(old(Emitted()), ResolveS(s, old(Allocator())))
      decreases s, 0
    {
      hide Emits, After, ResolveS, AllocateS, ResolveE, CodeE, ResolveO, AllocateO;
      ghost var r := ResolveS(s, Allocator());
      ResolvedIf(s, Allocator());
      if s.no.Some? {
        EmitsIfElse(Emitted(), r);
      } else {
        EmitsIf(Emitted(), r);
      }
      EmitExpression(s.cond);
      MemAdd(IC_BE0);
      var addr := MemReserve();
      EmitStatement(s.yes);
      if s.no.Some? {
        addr := EmitElse(s.no.value, addr);
      }
      MemSet(addr, |memory|);
    }

    /** Lets the test of a conditional jump behind the first branch, and emits the second. */
    method EmitElse(no: Stmt, test: nat) returns (addr: nat)
      requires Valid() && test < |memory|
      modifies this
      ensures Allocator() == AllocateS(no, old(Allocator()))
      ensures addr == |old(memory)| + 1
      ensures
        var start := old(Emitted()).(memory := old(memory)[test := |old(memory)| + 2] + [IC_B] + [0]);
        |memory| >= |start.memory| && Emitted() == Emits(start, ResolveS(no, old(Allocator())))
      ensures Valid()
      decreases no, 2
    {
      hide Emits, After, ResolveS, AllocateS;
      MemSet(test, |memory| + 2);
      MemAdd(IC_B);
      addr := MemReserve();
      EmitStatement(no);
    }

    method EmitSwitch(s: Stmt)
      requires Valid() && s.Switch?
      modifies this
      ensures Allocator() == AllocateS(s, old(Allocator()))
      ensures Emitted() == Emits(old(Emitted()), ResolveS(s, old(Allocator())))
      decreases s, 0
    {
      hide Emits, After;
      EmitsSwitch(Emitted(), ResolveS(s, Allocator()));
      var oldAddrBreak, oldAddrCase := addrBreak, addrCase;
      addrBreak := 0;
      addrCase := 0;
      EmitExpression(s.cond);
      EmitStatement(s.cases);
      if addrCase > 0 {
        MemSet(addrCase, |memory|);
      }
      AddrEndBreak();
      addrCase := oldAddrCase;
      addrBreak := oldAddrBreak;
    }

    method EmitWhile(s: Stmt)
      requires Valid() && s.While?
      modifies this
      ensures Allocator() == AllocateS(s, old(Allocator()))
      ensures Emitted() == Emits(old(Emitted()), ResolveS(s, old(Allocator())))
      decreases s, 0
    {
      hide Emits, After, Chain, Repoint, ResolveS, AllocateS, ResolveE, CodeE;
      ResolvedWhile(s, Allocator());
      EmitsWhile(Emitted(), ResolveS(s, Allocator()));
      var oldAddrBreak, oldAddrCond := addrBreak, addrCond;
      var addr := |memory|;
      addrCond := addr;
      EmitExpression(s.cond);
      ghost var code := CodeE(ResolveE(s.cond, displacements), addr);
      MemAdd(IC_BE0);
      addrBreak := |memory|;
      MemAdd(0);
      JoinPair(old(memory) + code, IC_BE0, 0);
      EmitStatement(s.loop);
      AddrBeginCondition(addr);
      ghost var looped := memory;
      MemAdd(IC_B);
      MemAdd(addr);
      JoinPair(looped, IC_B, addr);
      AddrEndBreak();
      addrBreak := oldAddrBreak;
      addrCond := oldAddrCond;
    }

    method EmitDo(s: Stmt)
      requires Valid() && s.Do?
      modifies this
      ensures Allocator() == AllocateS(s, old(Allocator()))
      ensures Emitted() == Emits(old(Emitted()), ResolveS(s, old(Allocator())))
      decreases s, 0
    {
      hide Emits, After, Chain, Repoint;
      EmitsDo(Emitted(), ResolveS(s, Allocator()));
      var oldAddrBreak, oldAddrCond := addrBreak, addrCond;
      var addr := |memory|;
      addrCond := 0;
      addrBreak := 0;
      EmitStatement(s.loop);
      AddrEndCondition();
      ghost var looped := memory;
      EmitExpression(s.cond);
      MemAdd(IC_BNE0);
      MemAdd(addr);
      JoinTail(looped, CodeE(ResolveE(s.cond, displacements), |looped|), IC_BNE0, addr);
      AddrEndBreak();
      addrBreak := oldAddrBreak;
      addrCond := oldAddrCond;
    }

    /** The test of a for loop, if it has one: leaving the loop starts the list of breaks. */
    method EmitForTest(test: Option<Expr>)
      requires Valid()
      modifies `memory, `addrBreak, `addrCond
      ensures Emitted() == AtBody(old(Emitted()), ResolveOE(test, displacements))
    {
      hide ResolveE, CodeE;
      addrCond := 0;
      addrBreak := 0;
      if test.Some? {
        EmitExpression(test.value);
        MemAdd(IC_BE0);
        addrBreak := |memory|;
        MemAdd(0);
        JoinPair(old(memory) + CodeE(ResolveE(test.value, displacements), |old(memory)|), IC_BE0, 0);
      }
    }

    /** The increment of a for loop and the jump back to its test. */
    method EmitForIncrement(next: Option<Expr>, addrInit: nat)
      modifies `memory
      ensures memory == old(memory) + (CodeNext(ResolveOE(next, displacements), |old(memory)|) + [IC_B, addrInit])
    {
      hide ResolveE, CodeV;
      if next.Some? {
        EmitVoid(next.value);
      }
      MemAdd(IC_B);
      MemAdd(addrInit);
      JoinTail(old(memory), CodeNext(ResolveOE(next, displacements), |old(memory)|), IC_B, addrInit);
    }

    method EmitFor(s: Stmt)
      requires Valid() && s.For?
      modifies this
      ensures Allocator() == AllocateS(s, old(Allocator()))
      ensures Emitted() == Emits(old(Emitted()), ResolveS(s, old(Allocator())))
      decreases s, 0
    {
      hide Emits, After, Chain, Repoint, ResolveS, AllocateS, ResolveOE, CodeNext, AtBody;
      ResolvedFor(s, Allocator());
      EmitsFor(Emitted(), ResolveS(s, Allocator()));
      var scopeDisplacement := displ;
      if s.start.Some? {
        EmitStatement(s.start.value);
      }
      var oldAddrBreak, oldAddrCond := addrBreak, addrCond;
      var addrInit := |memory|;
      EmitForTest(s.test);
      EmitStatement(s.loop);
      AddrEndCondition();
      EmitForIncrement(s.next, addrInit);
      AddrEndBreak();
      addrBreak := oldAddrBreak;
      addrCond := oldAddrCond;
      displ := scopeDisplacement;
    }

    method EmitContinue()
      requires Valid()
      modifies `memory, `addrCond
      ensures Emitted() == Emits(old(Emitted()), Continue)
    {
      AfterJump(Emitted(), ContinueHole);
      MemAdd(IC_B);
      MemAdd(addrCond);
      addrCond := |memory| - 1;
    }

    method EmitBreak()
      requires Valid()
      modifies `memory, `addrBreak
      ensures Emitted() == Emits(old(Emitted()), Break)
    {
      AfterJump(Emitted(), BreakHole);
      MemAdd(IC_B);
      MemAdd(addrBreak);
      addrBreak := |memory| - 1;
    }

    method EmitReturn(s: Stmt)
      requires Valid() && s.Return?
      modifies `memory
      ensures Emitted() == Emits(old(Emitted()), ResolveS(s, old(Allocator())))
    {
      hide Emits, After;
      ghost var em, r := Emitted(), ResolveS(s, Allocator());
      if s.result.Some? {
        EmitExpression(s.result.value);
        MemAdd(IC_RETURN_VAL);
        MemAdd(1);
        EmitsPlain(em, r, CodeE(r.result.value, |em.memory|) + [IC_RETURN_VAL, 1]);
      } else {
        MemAdd(IC_RETURN_VOID);
        EmitsPlain(em, r, [IC_RETURN_VOID]);
      }
    }

    /** Emits any statement in any context. */
    method EmitStatement(s: Stmt)
      requires Valid()
      modifies this
      ensures Allocator() == AllocateS(s, old(Allocator()))
      ensures Emitted() == Emits(old(Emitted()), ResolveS(s, old(Allocator())))
      ensures Valid()
      decreases s, 1
    {
      hide Emits, EmitsList, After, CodeV, CodeDecls, CodeE, AllocateDecls, ResolveDecls, ResolveE;
      ghost var em, r := Emitted(), ResolveS(s, Allocator());
      match s
      case Null =>
        EmitsNull(em);
      case Effect(e) =>
        EmitVoid(e);
        EmitsPlain(em, r, CodeV(r.expr, |em.memory|));
      case Declare(ds) =>
        EmitDeclarationStatement(ds);
        EmitsPlain(em, r, CodeDecls(r.decls, |em.memory|));
      case Block(ss) =>
        EmitCompound(ss);
        EmitsBlock(em, r);
      case If(_, _, _) => EmitIf(s);
      case While(_, _) => EmitWhile(s);
      case Do(_, _) => EmitDo(s);
      case For(_, _, _, _) => EmitFor(s);
      case Switch(_, _) => EmitSwitch(s);
      case Case(_, _) => EmitCase(s);
      case Default(_) => EmitDefault(s);
      case Break => EmitBreak();
      case Continue => EmitContinue();
      case Return(_) => EmitReturn(s);
    }

    // -------------------------------------------------------------- functions

    /** The parameters of a function take the first cells of its frame. */
    method EnterFunction(params: seq<Decl>)
      modifies this
      ensures Allocator() == Entry(params, old(Allocator()))
      ensures Emitted() == old(Emitted())
    {
      hide AllocateDecls, AllocateDecl;
      inFunction := true;
      displ := DISPL_START;
      maxLocalDispl := displ;
      ghost var f := Allocator();
      var i := 0;
      DeclsNone(f, 0);
      assert params[..0] == [];
      while i < |params|
        invariant 0 <= i <= |params|
        invariant Allocator() == AllocateDecls(params[..i], f)
        invariant Emitted() == old(Emitted())
      {
        DeclsNext(params, i, f, 0);
        AddParameter(params[i]);
        i := i + 1;
      }
      assert params[..i] == params;
    }

    /** Emits a whole function; its header takes the size of the frame and the address after it. */
    method EmitFunctionDefinition(params: seq<Decl>, body: Stmt)
      requires Valid() && Confined(body, false, false)
      modifies this
      ensures
        var entry := Entry(params, old(Allocator()));
        var r, frame := ResolveS(body, entry), AllocateS(body, entry);
        && memory == old(memory) + FunctionCode(r, frame.maxLocal, |old(memory)|)
        && Allocator() == frame.(inFunction := false)
      ensures addrBreak == old(addrBreak) && addrCond == old(addrCond) && addrCase == old(addrCase)
      ensures Valid()
    {
      hide Entry, Confined, ResolveS, AllocateS, CodeS, Emits, Finished;
      ghost var front := memory;
      EnterFunction(params);
      ghost var entry := Allocator();
      MemAdd(IC_FUNC_BEG);
      var displAddr := MemReserve();
      var jumpAddr := MemReserve();
      ghost var em, r := Emitted(), ResolveS(body, entry);
      EmitStatement(body);
      ConfinedResolved(body, entry, false, false);
      EmitsFinished(em, r);
      ghost var code := Finished(CodeS(r, |front| + 3));
      CloseFunction(displAddr, jumpAddr);
      JoinFunction(front, code, maxLocalDispl, |front| + |code| + 4);
      inFunction := false;
    }

    /** The return at the end of a function, and the cells of its header. */
    method CloseFunction(displAddr: nat, jumpAddr: nat)
      requires displAddr < |memory| && jumpAddr < |memory|
      modifies `memory
      ensures memory == (old(memory) + [IC_RETURN_VOID])[displAddr := maxLocalDispl][jumpAddr := |old(memory)| + 1]
    {
      MemAdd(IC_RETURN_VOID);
      MemSet(displAddr, maxLocalDispl);
      MemSet(jumpAddr, |memory|);
    }

    method EmitUnit(u: Unit)
      requires Valid() && !inFunction && (u.Function? ==> Confined(u.body, false, false))
      modifies this
      ensures memory == old(memory) + UnitCode(u, old(Allocator()), |old(memory)|)
      ensures Allocator() == UnitFrame(u, old(Allocator())) && Valid() && !inFunction
      ensures addrBreak == old(addrBreak) && addrCond == old(addrCond) && addrCase == old(addrCase)
    {
      hide Confined, FunctionCode, Entry, AllocateS, ResolveS, CodeDecls, AllocateDecls, ResolveDecls;
      match u
      case Globals(ds) =>
        EmitDeclarationStatement(ds);
        OutsideKept(ds, old(Allocator()));
        PlainReady(old(Emitted()), CodeDecls(ResolveDecls(ds, old(Allocator())), |old(memory)|));
      case Function(params, body) =>
        EmitFunctionDefinition(params, body);
    }

    /** Emits a whole program; main is the number of its function. */
    method EmitTranslationUnit(us: seq<Unit>, main: int)
      requires Valid() && !inFunction && ConfinedUnits(us)
      modifies this
      ensures memory == old(memory) + ProgramCode(us, old(Allocator()), main, |old(memory)|)
      ensures Allocator() == UnitsFrame(us, old(Allocator()))
    {
      hide Confined, UnitCode, UnitFrame, Ready;
      ghost var f, front := Allocator(), memory;
      var i := 0;
      assert us[..0] == [];
      assert front + [] == front;
      while i < |us|
        invariant 0 <= i <= |us| && Valid() && !inFunction
        invariant Allocator() == UnitsFrame(us[..i], f)
        invariant memory == front + UnitsCode(us[..i], f, |front|)
      {
        ghost var before, f' := UnitsCode(us[..i], f, |front|), UnitsFrame(us[..i], f);
        EmitUnit(us[i]);
        UnitsNext(us, i, f, |front|);
        ghost var code := UnitCode(us[i], f', |front| + |before|);
        assert front + before + code == front + (before + code);
        i := i + 1;
      }
      assert us[..i] == us;
      ghost var code := UnitsCode(us, f, |front|);
      EmitStart(main);
      assert front + code + [IC_CALL1, IC_CALL2, main, IC_STOP] == front + (code + [IC_CALL1, IC_CALL2, main, IC_STOP]);
    }

    /** The call that starts the program. */
    method EmitStart(main: int)
      modifies `memory
      ensures memory == old(memory) + [IC_CALL1, IC_CALL2, main, IC_STOP]
    {
      MemAdd(IC_CALL1);
      MemAdd(IC_CALL2);
      MemAdd(main);
      MemAdd(IC_STOP);
    }

    method AddParameter(d: Decl)
      modifies `displacements, `displ, `maxLocalDispl, `maxGlobalDispl
      ensures Allocator() == AllocateDecl(d, old(Allocator()))
    {
      var _ := DisplacementsAdd(d.name, if d.Scalar? then 1 else d.size);
    }
  }

  lemma {:induction false} OutsideKept(ds: seq<Decl>, f: Frame)
    ensures AllocateDecls(ds, f).inFunction == f.inFunction
    decreases |ds|
  {
    if ds != [] {
      OutsideKept(ds[..|ds| - 1], f);
    }
  }

  lemma PlainReady(em: Emission, c: seq<int>)
    requires Ready(em)
    ensures Ready(em.(memory := em.memory + c))
  {
  }

  // ---------------------------------------------------------------- sequences

  lemma JoinFunction(front: seq<int>, c: seq<int>, size: int, end: int)
    ensures
      var memory := front + [IC_FUNC_BEG] + [0] + [0] + c + [IC_RETURN_VOID];
      memory[|front| + 1 := size][|front| + 2 := end] == front + ([IC_FUNC_BEG, size, end] + c + [IC_RETURN_VOID])
  {
  }

  lemma DeclsNone(f: Frame, at: nat)
    ensures AllocateDecls([], f) == f && CodeDecls(ResolveDecls([], f), at) == []
  {
  }

  lemma DeclsNext(ds: seq<Decl>, i: nat, f: Frame, at: nat)
    requires i < |ds|
    ensures
      var before := CodeDecls(ResolveDecls(ds[..i], f), at);
      var f' := AllocateDecls(ds[..i], f);
      && AllocateDecls(ds[..i + 1], f) == AllocateDecl(ds[i], f')
      && CodeDecls(ResolveDecls(ds[..i + 1], f), at) == before + CodeD(ResolveDecl(ds[i], f'), at + |before|)
  {
    hide AllocateDecl, ResolveDecl, CodeD;
    assert ds[..i + 1][..i] == ds[..i];
    var r := ResolveDecls(ds[..i + 1], f);
    assert r[..i] == ResolveDecls(ds[..i], f);
  }

  // What resolving a statement does to its parts.

  lemma ResolvedCase(s: Stmt, f: Frame)
    requires s.Case?
    ensures ResolveS(s, f) == Case(ResolveE(s.tag, f.table), ResolveS(s.labelled, f))
    ensures AllocateS(s, f) == AllocateS(s.labelled, f)
  {
  }

  lemma ResolvedIf(s: Stmt, f: Frame)
    requires s.If?
    ensures
      var f' := AllocateS(s.yes, f);
      && ResolveS(s, f) == If(ResolveE(s.cond, f.table), ResolveS(s.yes, f),
                              if s.no.Some? then Some(ResolveS(s.no.value, f')) else None)
      && AllocateS(s, f) == if s.no.Some? then AllocateS(s.no.value, f') else f'
  {
  }

  lemma ResolvedWhile(s: Stmt, f: Frame)
    requires s.While?
    ensures ResolveS(s, f) == While(ResolveE(s.cond, f.table), ResolveS(s.loop, f))
    ensures AllocateS(s, f) == AllocateS(s.loop, f)
  {
  }

  lemma ResolvedFor(s: Stmt, f: Frame)
    requires s.For?
    ensures
      var f1 := AllocateO(s.start, f);
      var f2 := AllocateS(s.loop, f1);
      && ResolveS(s, f) == For(ResolveO(s.start, f), ResolveOE(s.test, f1.table), ResolveOE(s.next, f2.table), ResolveS(s.loop, f1))
      && AllocateS(s, f) == f2.(displ := f.displ)
  {
  }

  lemma CodeOfLogical(e: Expr, table: map<int, int>, at: nat)
    requires e.Binary? && IsLogical(e.bop)
    ensures
      var l := CodeE(ResolveE(e.left, table), at);
      var r := CodeE(ResolveE(e.right, table), at + |l| + 3);
      CodeE(ResolveE(e, table), at)
      == l + [IC_DUPLICATE, if e.bop == LogAnd then IC_BE0 else IC_BNE0, at + |l| + |r| + 4] + r + [BinaryCode(e.bop)]
  {
  }

  lemma CodeOfArithmetic(e: Expr, table: map<int, int>, at: nat)
    requires e.Binary? && !IsLogical(e.bop)
    ensures
      var l := CodeE(ResolveE(e.left, table), at);
      CodeE(ResolveE(e, table), at) == l + CodeE(ResolveE(e.right, table), at + |l|) + [BinaryCode(e.bop)]
  {
  }

  lemma VoidOfResolved(e: Expr, table: map<int, int>, at: nat)
    ensures CodeV(ResolveE(e, table), at) == if e.Var? then [] else Dropped(CodeE(ResolveE(e, table), at))
  {
    hide CodeE, Dropped;
  }

  lemma CodeOfSimple(e: Expr, table: map<int, int>, at: nat)
    ensures
      var c := CodeE(ResolveE(e, table), at);
      match e
      case Lit(v) => c == [IC_LI, v]
      case Var(x) => c == [IC_LOAD, Displacement(table, x)]
      case Unary(op, a) => c == CodeE(ResolveE(a, table), at) + [UnaryCode(op)]
      case Step(op, x) => c == [StepCode(op), Displacement(table, x)]
      case Comma(a, b) =>
        var l := CodeV(ResolveE(a, table), at);
        c == l + CodeE(ResolveE(b, table), at + |l|)
      case Assign(op, x, a) => c == CodeE(ResolveE(a, table), at) + [AssignCode(op), Displacement(table, x)]
      case _ => true
  {
    hide CodeV;
  }

  lemma CodeOfTernary(e: Expr, table: map<int, int>, at: nat)
    requires e.Ternary?
    ensures
      var t := CodeE(ResolveE(e.cond, table), at);
      var l := CodeE(ResolveE(e.yes, table), at + |t| + 2);
      var r := CodeE(ResolveE(e.no, table), at + |t| + |l| + 4);
      CodeE(ResolveE(e, table), at)
      == t + [IC_BE0, at + |t| + |l| + 4] + l + [IC_B, at + |t| + |l| + |r| + 4] + r
  {
    hide CodeE;
    TernaryCode(ResolveE(e, table), at);
  }

  lemma SetReserved(front: seq<int>, x: int, y: int, back: seq<int>)
    ensures (front + [x] + back)[|front| := y] == front + [y] + back
  {
  }

  lemma JoinLogical(front: seq<int>, l: seq<int>, d: int, j: int, x: int, r: seq<int>, op: int)
    ensures front + l + [d] + [j] + [x] + r + [op] == front + (l + [d, j, x] + r + [op])
  {
  }

  lemma JoinTest(front: seq<int>, d: int, code: seq<int>, eq: int, j: int, x: int)
    ensures front + [d] + code + [eq] + [j] + [x] == front + ([d] + code + [eq, j] + [x])
  {
  }

  lemma JoinPair(front: seq<int>, x: int, y: int)
    ensures front + [x] + [y] == front + [x, y]
  {
  }

  lemma JoinTail(front: seq<int>, code: seq<int>, x: int, y: int)
    ensures front + code + [x] + [y] == front + (code + [x, y])
  {
  }

  lemma JoinBranches(front: seq<int>, t: seq<int>, j: int, x: int, l: seq<int>, b: int, y: int, r: seq<int>)
    ensures front + t + [j] + [x] + l + [b] + [y] + r == front + (t + [j, x] + l + [b, y] + r)
  {
  }

  lemma DropBehind(front: seq<int>, code: seq<int>)
    requires |code| >= 2
    ensures
      var memory := front + code;
      var k := if memory[|memory| - 1] < MIN_INSTRUCTION_CODE then |memory| - 2 else |memory| - 1;
      memory[k := ToVoid(memory[k])] == front + Dropped(code)
  {
  }
}
