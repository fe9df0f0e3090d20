/** The two helpers of src/utils.ts: the synthetic name of a module's default
    export, and the `const` declaration builder used by every rewriter. */
module Utils {

  import opened Strings
  import opened Tables
  import opened Ast

  const DefaultExportPrefix: string := "__default_export_module_"

  /** `__default_export_module_${moduleId}` */
  function DefaultExportIdentifierName(moduleId: nat): (r: string)
    ensures StartsWith(r, DefaultExportPrefix)
    ensures r[|DefaultExportPrefix|..] == Decimal(moduleId)
  {
    DefaultExportPrefix + Decimal(moduleId)
  }

  /** The fixed prefix makes the name a function of the id alone: two modules
      with different ids never share a default-export name. */
  lemma DefaultExportNamesDistinct(a: nat, b: nat)
    requires a != b
    ensures DefaultExportIdentifierName(a) != DefaultExportIdentifierName(b)
  {
    if DefaultExportIdentifierName(a) == DefaultExportIdentifierName(b) {
      DecimalInjective(a, b);
    }
  }

  /** `const <name> = <expression>;` */
  function DeclareConst(name: string, expression: Expr): (d: Decl)
    ensures d.VarDecl? && d.kind == Const
    ensures |d.declarators| == 1
    ensures d.declarators[0].id == IdPattern(name) && d.declarators[0].init == Some(expression)
  {
    VarDecl(Const, [Declarator(IdPattern(name), Some(expression))])
  }

  /** A declaration built by DeclareConst introduces exactly the given name. */
  lemma DeclareConstDeclares(name: string, expression: Expr)
    ensures DeclaredNames(DeclareConst(name, expression)) == [name]
  {
    var ds := DeclareConst(name, expression).declarators;
    assert ds[1..] == [];
    assert PatternNames(ds[0].id) == [name];
    assert DeclaratorNames(ds) == PatternNames(ds[0].id) + DeclaratorNames(ds[1..]);
  }
}
