// Whole programs: what names mean outside of functions, and in each of them.
module Programs {
  import opened Cminus

  datatype Decl = VarDecl(x: string) | FunDecl(f: Function)

  function NameOf(d: Decl): string
  {
    if d.VarDecl? then d.x else d.f.name
  }

  function Declared(d: Decl): Binding
  {
    if d.VarDecl? then Variable(Global(d.x)) else Callee(d.f.name)
  }

  // The functions of the runtime library are always there.
  const LIBRARY: map<string, Binding> := map["input" := Callee("input"), "output" := Callee("output"),
    "outputFloat" := Callee("outputFloat"), "neg_idx_except" := Callee("neg_idx_except")]

  // What names mean after the declarations ds.
  function TopLevel(ds: seq<Decl>): map<string, Binding>
  {
    if ds == [] then LIBRARY
    else
      var names, last := TopLevel(ds[..|ds| - 1]), ds[|ds| - 1];
      if NameOf(last) in names then names else names[NameOf(last) := Declared(last)]
  }

  lemma {:induction false} TopLevelNames(ds: seq<Decl>, x: string)
    ensures x in TopLevel(ds) <==> (x in {"input", "output", "outputFloat", "neg_idx_except"} ||
      exists j :: 0 <= j < |ds| && NameOf(ds[j]) == x)
    ensures x in {"input", "output", "outputFloat", "neg_idx_except"} ==> TopLevel(ds)[x] == Callee(x)
  {
    if ds != [] {
      var init := ds[..|ds| - 1];
      TopLevelNames(init, x);
      assert forall j :: 0 <= j < |init| ==> ds[j] == init[j];
    }
  }

  // A name that is not the library's means what its first declaration makes it.
  lemma {:induction false} FirstDeclaration(ds: seq<Decl>, k: nat)
    requires k < |ds| && NameOf(ds[k]) !in {"input", "output", "outputFloat", "neg_idx_except"}
    requires forall j :: 0 <= j < k ==> NameOf(ds[j]) != NameOf(ds[k])
    ensures NameOf(ds[k]) in TopLevel(ds)
    ensures ds[k].VarDecl? ==> TopLevel(ds)[ds[k].x] == Variable(Global(ds[k].x))
    ensures ds[k].FunDecl? ==> TopLevel(ds)[ds[k].f.name] == Callee(ds[k].f.name)
  {
    if k < |ds| - 1 {
      FirstDeclaration(ds[..|ds| - 1], k);
    } else {
      TopLevelNames(ds[..k], NameOf(ds[k]));
    }
  }
}
