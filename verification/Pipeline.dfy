/**
  * From the tokens of an expression to the run of its code.
  */
module Pipeline {
  import opened Common
  import opened Ast
  import opened Codegen
  import opened Machine
  import opened Semantics
  import opened IsoC
  import opened ExprCorrect
  import Tokens
  import Grammar
  import Notation
  import ParserSound
  import opened Builder
  import opened TreeMeaning

  /**
    * The code of a folded tree computes what ISO/IEC 9899:2011 says the tree means as
    * it was written, in every state of the machine.
    */
  lemma FoldedRuns(t: Grammar.Tree, scope: map<nat, Variable>, memory: seq<int>, s: State)
    requires var b := Build(t, scope, true); b.Node? && ExactE(b.expr) && Clean(b.expr)
    requires Has(memory, s.pc, CodeE(Build(t, scope, true).expr, s.pc))
    ensures Delivers(memory, s, Pushed(Mean(t, scope, s.data)), s.pc + |CodeE(Build(t, scope, true).expr, s.pc)|)
  {
    hide Build, Mean, ExactE, Clean, Has, Delivers, CodeE, Eval, IsoEval;
    var b := Build(t, scope, true);
    BuildMeans(t, scope, true, s.data);
    ExprRuns(b.expr, memory, s);
    ExactSame(b.expr, s.data);
  }

  /**
    * A text that is one reading of a tree is parsed to that tree, and its code
    * computes the meaning of the tree.
    */
  lemma TextRuns(ts: seq<Tokens.Token>, t: Grammar.Tree, rest: seq<Tokens.Token>, scope: map<nat, Variable>, memory: seq<int>, s: State)
    requires ParserSound.Reading(ts, Tokens.PREC_COMMA, t, rest)
    requires var b := Build(t, scope, true); b.Node? && ExactE(b.expr) && Clean(b.expr)
    requires Has(memory, s.pc, CodeE(Build(t, scope, true).expr, s.pc))
    ensures Grammar.Expression(ts) == Grammar.Parsed(t, rest, true)
    ensures Delivers(memory, s, Pushed(Mean(t, scope, s.data)), s.pc + |CodeE(Build(t, scope, true).expr, s.pc)|)
  {
    hide Build, Mean, ExactE, Clean, Has, Delivers, CodeE, IsoEval, Grammar.Expression;
    ParserSound.ExpressionExact(ts, t, rest);
    FoldedRuns(t, scope, memory, s);
  }
}
