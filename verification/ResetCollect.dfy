/**
 * Collecting the declarations of a package: its types, which of them have
 * Reset, and which ask for one to be generated.
 */
module ResetCollect {
  import opened Wrappers
  import opened ResetTypes
  import opened ResetMethods

  const MARKER := "generate:reset"

  datatype Comments = Comments(lines: seq<string>)

  datatype Spec = Spec(name: string, def: Type, alias: bool, params: seq<string>, doc: Option<Comments>)

  /** recv lists the receivers of a method, none for a function; a plain one can be called without arguments. */
  datatype GoDecl =
    | Func(recv: Option<seq<Type>>, name: string, plain: bool)
    | Types(doc: Option<Comments>, specs: seq<Spec>)
    | OtherDecl

  datatype File = File(name: string, decls: seq<GoDecl>)

  datatype Target = Target(spec: Spec, file: string)

  /** The white space of Unicode. */
  predicate IsSpace(c: char) {
    || c == ' ' || '\t' <= c <= '\r' || c == '\U{85}' || c == '\U{A0}' || c == '\U{1680}'
    || '\U{2000}' <= c <= '\U{200A}' || c == '\U{2028}' || c == '\U{2029}' || c == '\U{202F}' || c == '\U{205F}'
    || c == '\U{3000}'
  }

  function TrimLeft(s: string): string {
    if s != "" && IsSpace(s[0]) then TrimLeft(s[1..]) else s
  }

  function TrimRight(s: string): string {
    if s != "" && IsSpace(s[|s| - 1]) then TrimRight(s[..|s| - 1]) else s
  }

  function TrimPrefix(s: string, prefix: string): string {
    if prefix <= s then s[|prefix|..] else s
  }

  predicate IsMarker(text: string) {
    TrimRight(TrimLeft(TrimPrefix(text, "//"))) == MARKER
  }

  method HasMarker(doc: Option<Comments>) returns (marked: bool)
    ensures marked <==> IsMarked(doc)
  {
    if doc.None? {
      return false;
    }
    for i := 0 to |doc.value.lines|
      invariant forall j | 0 <= j < i :: !IsMarker(doc.value.lines[j])
    {
      if IsMarker(doc.value.lines[i]) {
        return true;
      }
    }
    return false;
  }

  ghost predicate IsMarked(doc: Option<Comments>) {
    doc.Some? && exists i :: 0 <= i < |doc.value.lines| && IsMarker(doc.value.lines[i])
  }

  /** The name of the type a method is declared for, empty if it has none. */
  function RecvTypeName(t: Type): string {
    var x := if t.Star? then t.elem else t;
    var y := if x.Index? then x.base else x;
    if y.Ident? then y.name else ""
  }

  // ---------------------------------------------------------------- what the declarations say

  /** A Reset method is declared for the name n. */
  predicate DeclaresReset(d: GoDecl, n: string) {
    d.Func? && d.recv.Some? && d.name == "Reset" && |d.recv.value| == 1 && RecvTypeName(d.recv.value[0]) == n && n != ""
  }

  /** Specification i of d asks for a method. A comment on the whole declaration counts if it declares nothing else. */
  ghost predicate AsksForReset(d: GoDecl, i: int) {
    && d.Types? && 0 <= i < |d.specs| && d.specs[i].def.Struct?
    && IsMarked(if d.specs[i].doc.None? && |d.specs| == 1 then d.doc else d.specs[i].doc)
  }

  /** What the first n specifications of d that ask for a method are, in order. */
  ghost function Asking(d: GoDecl, n: nat): seq<Spec>
    requires d.Types? && n <= |d.specs|
  {
    if n == 0 then [] else Asking(d, n - 1) + if AsksForReset(d, n - 1) then [d.specs[n - 1]] else []
  }

  ghost function Targets(decls: seq<GoDecl>): seq<Spec> {
    if decls == [] then []
    else
      var d := decls[|decls| - 1];
      Targets(decls[..|decls| - 1]) + if d.Types? then Asking(d, |d.specs|) else []
  }

  /** The last specification of a name counts. */
  function Specified(m: map<string, Spec>, specs: seq<Spec>): map<string, Spec> {
    if specs == [] then m else Specified(m, specs[..|specs| - 1])[specs[|specs| - 1].name := specs[|specs| - 1]]
  }

  function Declared(m: map<string, Spec>, decls: seq<GoDecl>): map<string, Spec> {
    if decls == [] then m
    else
      var d := decls[|decls| - 1];
      var before := Declared(m, decls[..|decls| - 1]);
      if d.Types? then Specified(before, d.specs) else before
  }

  ghost predicate IsNamedIn(specs: seq<Spec>, n: string) {
    exists i :: 0 <= i < |specs| && specs[i].name == n
  }

  lemma NamesOfBoth(a: seq<Spec>, b: seq<Spec>)
    ensures forall n :: IsNamedIn(a + b, n) <==> IsNamedIn(a, n) || IsNamedIn(b, n)
    ensures forall s: Spec, n :: IsNamedIn([s], n) <==> s.name == n
  {
    forall n
      ensures IsNamedIn(a + b, n) <==> IsNamedIn(a, n) || IsNamedIn(b, n)
    {
      if i :| 0 <= i < |a| && a[i].name == n {
        assert (a + b)[i].name == n;
      }
      if i :| 0 <= i < |b| && b[i].name == n {
        assert (a + b)[|a| + i].name == n;
      }
    }
    forall s: Spec, n
      ensures IsNamedIn([s], n) <==> s.name == n
    {
      assert [s][0] == s;
    }
  }

  /** A struct of the name n asks for a method, or a method is declared for it. */
  ghost predicate HasResetIn(decls: seq<GoDecl>, n: string) {
    DeclaresResetIn(decls, n) || IsNamedIn(Targets(decls), n)
  }

  function InFile(specs: seq<Spec>, file: string): seq<Target> {
    seq(|specs|, i requires 0 <= i < |specs| => Target(specs[i], file))
  }

  class PkgInfo {
    var types: map<string, Spec>
    var hasReset: set<string>
    var targets: seq<Target>

    constructor ()
      ensures types == map[] && hasReset == {} && targets == []
    {
      types, hasReset, targets := map[], {}, [];
    }

    method CollectSpecs(d: GoDecl, file: string)
      requires d.Types?
      modifies this
      ensures types == Specified(old(types), d.specs)
      ensures targets == old(targets) + InFile(Asking(d, |d.specs|), file)
      ensures forall n :: n in hasReset <==> n in old(hasReset) || IsNamedIn(Asking(d, |d.specs|), n)
    {
      var i := 0;
      while i < |d.specs|
        invariant i <= |d.specs|
        invariant types == Specified(old(types), d.specs[..i])
        invariant targets == old(targets) + InFile(Asking(d, i), file)
        invariant forall n :: n in hasReset <==> n in old(hasReset) || IsNamedIn(Asking(d, i), n)
      {
        var s := d.specs[i];
        assert d.specs[..i + 1][..i] == d.specs[..i];
        NamesOfBoth(Asking(d, i), [s]);
        assert Asking(d, i + 1) == if AsksForReset(d, i) then Asking(d, i) + [s] else Asking(d, i);
        types := types[s.name := s];
        if s.def.Struct? {
          var marked := HasMarker(if s.doc.None? && |d.specs| == 1 then d.doc else s.doc);
          if marked {
            targets := targets + [Target(s, file)];
            hasReset := hasReset + {s.name};
          }
        }
        i := i + 1;
      }
      assert d.specs[..i] == d.specs;
    }

    /** Adds what the declarations of one file say. */
    method CollectDecls(f: File)
      modifies this
      ensures types == Declared(old(types), f.decls)
      ensures targets == old(targets) + InFile(Targets(f.decls), f.name)
      ensures forall n :: n in hasReset <==> n in old(hasReset) || HasResetIn(f.decls, n)
    {
      var i := 0;
      while i < |f.decls|
        invariant i <= |f.decls|
        invariant types == Declared(old(types), f.decls[..i])
        invariant targets == old(targets) + InFile(Targets(f.decls[..i]), f.name)
        invariant forall n :: n in hasReset <==> n in old(hasReset) || HasResetIn(f.decls[..i], n)
      {
        assert f.decls[..i + 1][..i] == f.decls[..i];
        match f.decls[i] {
          case Func(recv, name, _) =>
            if recv.Some? && name == "Reset" && |recv.value| == 1 {
              var n := RecvTypeName(recv.value[0]);
              if n != "" {
                hasReset := hasReset + {n};
              }
            }
          case Types(_, _) => CollectSpecs(f.decls[i], f.name);
          case OtherDecl =>
        }
        forall n
          ensures n in hasReset <==> n in old(hasReset) || HasResetIn(f.decls[..i + 1], n)
        {
          OneMoreDecl(f.decls[..i + 1], n);
        }
        i := i + 1;
      }
      assert f.decls[..i] == f.decls;
    }

    /** Adds what the files of a package say, one after the other. */
    method CollectFiles(files: seq<File>)
      modifies this
      ensures types == Declared(old(types), Decls(files))
      ensures targets == old(targets) + TargetsOf(files)
      ensures forall n :: n in hasReset <==> n in old(hasReset) || HasResetIn(Decls(files), n)
    {
      var i := 0;
      while i < |files|
        invariant i <= |files|
        invariant types == Declared(old(types), Decls(files[..i]))
        invariant targets == old(targets) + TargetsOf(files[..i])
        invariant forall n :: n in hasReset <==> n in old(hasReset) || HasResetIn(Decls(files[..i]), n)
      {
        assert files[..i + 1][..i] == files[..i];
        DeclaredInBoth(old(types), Decls(files[..i]), files[i].decls);
        CollectDecls(files[i]);
        forall n
          ensures HasResetIn(Decls(files[..i + 1]), n)
              <==> HasResetIn(Decls(files[..i]), n) || HasResetIn(files[i].decls, n)
        {
          HasResetInBoth(Decls(files[..i]), files[i].decls, n);
        }
        i := i + 1;
      }
      assert files[..i] == files;
    }
  }

  /** All declarations of a package. */
  function Decls(files: seq<File>): seq<GoDecl> {
    if files == [] then [] else Decls(files[..|files| - 1]) + files[|files| - 1].decls
  }

  ghost function TargetsOf(files: seq<File>): seq<Target> {
    if files == [] then []
    else
      var f := files[|files| - 1];
      TargetsOf(files[..|files| - 1]) + InFile(Targets(f.decls), f.name)
  }

  lemma OneMoreDecl(decls: seq<GoDecl>, n: string)
    requires decls != []
    ensures var d := decls[|decls| - 1];
            HasResetIn(decls, n)
            <==> HasResetIn(decls[..|decls| - 1], n) || DeclaresReset(d, n)
                 || (d.Types? && IsNamedIn(Asking(d, |d.specs|), n))
  {
    var front, d := decls[..|decls| - 1], decls[|decls| - 1];
    NamesOfBoth(Targets(front), if d.Types? then Asking(d, |d.specs|) else []);
    assert decls == front + [d];
    DeclaresInBoth(front, [d], n);
    assert [d][0] == d;
  }

  lemma {:induction false} DeclaredInBoth(m: map<string, Spec>, a: seq<GoDecl>, b: seq<GoDecl>)
    ensures Declared(m, a + b) == Declared(Declared(m, a), b)
  {
    if b == [] {
      assert a + b == a;
    } else {
      assert (a + b)[..|a + b| - 1] == a + b[..|b| - 1];
      DeclaredInBoth(m, a, b[..|b| - 1]);
    }
  }

  lemma {:induction false} TargetsInBoth(a: seq<GoDecl>, b: seq<GoDecl>)
    ensures Targets(a + b) == Targets(a) + Targets(b)
  {
    if b == [] {
      assert a + b == a;
    } else {
      assert (a + b)[..|a + b| - 1] == a + b[..|b| - 1];
      TargetsInBoth(a, b[..|b| - 1]);
    }
  }

  lemma HasResetInBoth(a: seq<GoDecl>, b: seq<GoDecl>, n: string)
    ensures HasResetIn(a + b, n) <==> HasResetIn(a, n) || HasResetIn(b, n)
  {
    TargetsInBoth(a, b);
    NamesOfBoth(Targets(a), Targets(b));
    DeclaresInBoth(a, b, n);
  }

  ghost predicate DeclaresResetIn(decls: seq<GoDecl>, n: string) {
    exists i :: 0 <= i < |decls| && DeclaresReset(decls[i], n)
  }

  lemma DeclaresInBoth(a: seq<GoDecl>, b: seq<GoDecl>, n: string)
    ensures DeclaresResetIn(a + b, n) <==> DeclaresResetIn(a, n) || DeclaresResetIn(b, n)
  {
    if i :| 0 <= i < |a| && DeclaresReset(a[i], n) {
      assert DeclaresReset((a + b)[i], n);
    }
    if i :| 0 <= i < |b| && DeclaresReset(b[i], n) {
      assert DeclaresReset((a + b)[|a| + i], n);
    }
  }

  // ---------------------------------------------------------------- the package the generator works on

  /** The method Go takes d to declare is Reset of the type n, whatever name its receiver is written with. */
  ghost predicate MakesReset(shape: Env, d: GoDecl, n: string)
    requires Valid(shape)
  {
    d.Func? && d.recv.Some? && d.name == "Reset" && |d.recv.value| == 1 && BaseOf(shape, d.recv.value[0]) == n
  }

  ghost function OwnOf(decls: seq<GoDecl>, shape: Env, n: string): ResetMethod
    requires Valid(shape)
  {
    if exists i :: 0 <= i < |decls| && MakesReset(shape, decls[i], n) && decls[i].plain then Plain
    else if exists i :: 0 <= i < |decls| && MakesReset(shape, decls[i], n) then WithArguments
    else NoReset
  }

  ghost function DeclOf(decls: seq<GoDecl>, s: Spec): Decl {
    Decl(s.def, s.alias, s.params, DeclaresResetIn(decls, s.name), IsNamedIn(Targets(decls), s.name), NoReset)
  }

  /** What the generator knows of the declarations; the rest is as around them. */
  ghost function Shape(decls: seq<GoDecl>, around: Env): Env {
    var specs := Declared(map[], decls);
    around.(types := map n | n in specs :: DeclOf(decls, specs[n]))
  }

  /** With the methods Go takes the types to have. */
  ghost function EnvOf(decls: seq<GoDecl>, around: Env): Env
    requires Valid(Shape(decls, around))
  {
    var shape := Shape(decls, around);
    around.(types := map n | n in shape.types :: shape.types[n].(own := OwnOf(decls, shape, n)))
  }

  /** The last specification of a name has that name. */
  lemma {:induction false} SpecifiedKeepsNames(m: map<string, Spec>, specs: seq<Spec>)
    requires forall n | n in m :: m[n].name == n
    ensures forall n | n in Specified(m, specs) :: Specified(m, specs)[n].name == n
    ensures forall n :: n in Specified(m, specs) <==> n in m || IsNamedIn(specs, n)
  {
    if specs != [] {
      var front, last := specs[..|specs| - 1], specs[|specs| - 1];
      SpecifiedKeepsNames(m, front);
      assert specs == front + [last];
      NamesOfBoth(front, [last]);
    }
  }

  lemma {:induction false} DeclaredKeepsNames(decls: seq<GoDecl>)
    ensures forall n | n in Declared(map[], decls) :: Declared(map[], decls)[n].name == n
  {
    if decls != [] {
      var d := decls[|decls| - 1];
      DeclaredKeepsNames(decls[..|decls| - 1]);
      if d.Types? {
        SpecifiedKeepsNames(Declared(map[], decls[..|decls| - 1]), d.specs);
      }
    }
  }

  /** The generator counts on a method for a declared name exactly when the name was collected in hasReset. */
  lemma CountedOnExactlyWhenCollected(decls: seq<GoDecl>, around: Env, n: string)
    requires Valid(Shape(decls, around)) && n in EnvOf(decls, around).types
    ensures EnvOf(decls, around).types[n].HasMethod() <==> HasResetIn(decls, n)
  {
    DeclaredKeepsNames(decls);
  }

  /** A method recorded for a name that is no alias is one of that type. */
  lemma RecordedIsOwn(decls: seq<GoDecl>, around: Env, n: string)
    requires Valid(Shape(decls, around)) && n in EnvOf(decls, around).types
    requires var d := EnvOf(decls, around).types[n]; d.recorded && !d.alias
    ensures !EnvOf(decls, around).types[n].own.NoReset?
  {
    DeclaredKeepsNames(decls);
    var i :| 0 <= i < |decls| && DeclaresReset(decls[i], n);
    assert MakesReset(Shape(decls, around), decls[i], n);
  }

  /**
   * The converse does not hold: a Reset whose receiver is written with an alias
   * of a target, or in parentheses, is not recorded for it, and the method
   * generated beside it is refused.
   */
  lemma UnrecordedResetIsRefused(decls: seq<GoDecl>, around: Env, i: nat, n: string)
    requires Valid(Shape(decls, around)) && Valid(EnvOf(decls, around)) && IsTarget(EnvOf(decls, around), n)
    requires i < |decls| && MakesReset(Shape(decls, around), decls[i], n)
    ensures !IsAccepted(EnvOf(decls, around), n)
  {
  }

  function AllSpecs(decls: seq<GoDecl>): seq<Spec> {
    if decls == [] then []
    else
      var d := decls[|decls| - 1];
      AllSpecs(decls[..|decls| - 1]) + if d.Types? then d.specs else []
  }

  /** No type is declared twice. */
  ghost predicate AreDistinct(specs: seq<Spec>) {
    forall i, j | 0 <= i < j < |specs| :: specs[i].name != specs[j].name
  }

  lemma {:induction false} SpecifiedInBoth(m: map<string, Spec>, a: seq<Spec>, b: seq<Spec>)
    ensures Specified(m, a + b) == Specified(Specified(m, a), b)
  {
    if b == [] {
      assert a + b == a;
    } else {
      assert (a + b)[..|a + b| - 1] == a + b[..|b| - 1];
      SpecifiedInBoth(m, a, b[..|b| - 1]);
    }
  }

  lemma {:induction false} DeclaredIsSpecified(decls: seq<GoDecl>)
    ensures Declared(map[], decls) == Specified(map[], AllSpecs(decls))
  {
    if decls != [] {
      var d := decls[|decls| - 1];
      var before := AllSpecs(decls[..|decls| - 1]);
      DeclaredIsSpecified(decls[..|decls| - 1]);
      if d.Types? {
        SpecifiedInBoth(map[], before, d.specs);
      } else {
        assert AllSpecs(decls) == before;
      }
    }
  }

  lemma {:induction false} SpecifiedOnce(specs: seq<Spec>, i: nat)
    requires AreDistinct(specs) && i < |specs|
    ensures specs[i].name in Specified(map[], specs) && Specified(map[], specs)[specs[i].name] == specs[i]
  {
    if i < |specs| - 1 {
      SpecifiedOnce(specs[..|specs| - 1], i);
    }
  }

  lemma {:induction false} AskingAreStructs(d: GoDecl, n: nat)
    requires d.Types? && n <= |d.specs|
    ensures forall s | s in Asking(d, n) :: s in d.specs && s.def.Struct?
  {
    if n > 0 {
      AskingAreStructs(d, n - 1);
    }
  }

  lemma {:induction false} TargetsAreStructs(decls: seq<GoDecl>)
    ensures forall s | s in Targets(decls) :: s in AllSpecs(decls) && s.def.Struct?
  {
    if decls != [] {
      var d := decls[|decls| - 1];
      TargetsAreStructs(decls[..|decls| - 1]);
      if d.Types? {
        AskingAreStructs(d, |d.specs|);
      }
    }
  }

  /** Methods are written for exactly the names that were collected as targets. */
  lemma TargetExactlyWhenCollected(decls: seq<GoDecl>, around: Env, n: string)
    requires Valid(Shape(decls, around)) && AreDistinct(AllSpecs(decls))
    ensures IsTarget(EnvOf(decls, around), n) <==> IsNamedIn(Targets(decls), n)
  {
    DeclaredKeepsNames(decls);
    if IsNamedIn(Targets(decls), n) {
      var i :| 0 <= i < |Targets(decls)| && Targets(decls)[i].name == n;
      TargetsAreStructs(decls);
      assert Targets(decls)[i] in Targets(decls);
      var j :| 0 <= j < |AllSpecs(decls)| && AllSpecs(decls)[j] == Targets(decls)[i];
      DeclaredIsSpecified(decls);
      SpecifiedOnce(AllSpecs(decls), j);
    }
  }

  // ---------------------------------------------------------------- a method declared under another name

  const ALIAS := Spec("A", Ident("T"), true, [], None)
  const STRUCT := Spec("T", Struct([Listed(["n"], Ident("int"))], Opaque("", {"int"}, {}, {})), false, [], None)
  const MARKED := Comments(["// generate:reset"])

  /** type A = T; func (a *A) Reset(); and a marked type T struct{ n int }. */
  const ALIASED := [Types(None, [ALIAS]), Func(Some([Star(Ident("A"))]), "Reset", true), Types(Some(MARKED), [STRUCT])]

  const AROUND := Env(map[], (p: string, n: string) => External(NotImported, false, IsValue, true), {"A", "T"}, {}, {},
                      (t: Type) => false, map["T" := 0, "A" := 1])

  lemma MarkerIsRead()
    ensures IsMarked(Some(MARKED))
  {
    var text := "// generate:reset";
    assert TrimPrefix(text, "//") == " generate:reset";
    assert " generate:reset"[1..] == MARKER;
    assert TrimLeft(" generate:reset") == MARKER;
    assert TrimRight(MARKER) == MARKER;
    assert IsMarker(MARKED.lines[0]);
  }

  lemma OneDecl(m: map<string, Spec>, d: GoDecl)
    ensures Declared(m, [d]) == (if d.Types? then Specified(m, d.specs) else m)
    ensures Targets([d]) == (if d.Types? then Asking(d, |d.specs|) else [])
  {
    assert [d][..0] == [];
  }

  lemma OneSpec(m: map<string, Spec>, s: Spec, doc: Option<Comments>)
    ensures Declared(m, [Types(doc, [s])]) == m[s.name := s]
    ensures s.doc.None? ==> Targets([Types(doc, [s])]) == if s.def.Struct? && IsMarked(doc) then [s] else []
  {
    var d := Types(doc, [s]);
    OneDecl(m, d);
    assert [s][..0] == [];
    assert Asking(d, 0) == [];
    assert Asking(d, 1) == if AsksForReset(d, 0) then [s] else [];
  }

  lemma AliasedTargets()
    ensures Targets(ALIASED) == [STRUCT] && Declared(map[], ALIASED) == map["A" := ALIAS]["T" := STRUCT]
  {
    MarkerIsRead();
    var a, f, t := ALIASED[0], ALIASED[1], ALIASED[2];
    assert ALIASED == [a] + ([f] + [t]);
    OneSpec(map[], ALIAS, None);
    OneDecl(map["A" := ALIAS], f);
    OneSpec(map["A" := ALIAS], STRUCT, Some(MARKED));
    DeclaredInBoth(map[], [a], [f] + [t]);
    DeclaredInBoth(map["A" := ALIAS], [f], [t]);
    TargetsInBoth([a], [f] + [t]);
    TargetsInBoth([f], [t]);
  }

  /** The environment of one alias A of a target T, whatever the target has for a method. */
  ghost predicate IsAliasedEnv(env: Env, own: ResetMethod) {
    && env == AROUND.(types := env.types) && env.types.Keys == {"A", "T"}
    && env.types["A"] == Decl(Ident("T"), true, [], true, false, NoReset)
    && env.types["T"] == Decl(STRUCT.def, false, [], false, true, own)
  }

  lemma AliasedIsValid(env: Env, own: ResetMethod)
    requires IsAliasedEnv(env, own)
    ensures Valid(env) && Normal(env, Ident("A")) == Ident("T") && IsTarget(env, "T")
  {
    assert Rank(env, Ident("T")) == 1 && Rank(env, STRUCT.def) == 0;
  }

  lemma AliasedShape()
    ensures IsAliasedEnv(Shape(ALIASED, AROUND), NoReset)
  {
    AliasedTargets();
    assert DeclaresReset(ALIASED[1], "A") && !DeclaresResetIn(ALIASED, "T");
    assert IsNamedIn([STRUCT], "T") by {
      assert [STRUCT][0].name == "T";
    }
    assert !IsNamedIn([STRUCT], "A");
  }

  /** T has the method Go gives it through A, which the generator has not recorded for T. */
  lemma ResetThroughAliasIsRefused()
    ensures Valid(Shape(ALIASED, AROUND)) && IsAliasedEnv(EnvOf(ALIASED, AROUND), Plain)
    ensures Valid(EnvOf(ALIASED, AROUND)) && IsTarget(EnvOf(ALIASED, AROUND), "T")
    ensures !IsAccepted(EnvOf(ALIASED, AROUND), "T")
  {
    AliasedShape();
    var shape := Shape(ALIASED, AROUND);
    AliasedIsValid(shape, NoReset);
    assert MakesReset(shape, ALIASED[1], "T") && ALIASED[1].plain;
    NoResetForAlias(shape);
    AliasedIsValid(EnvOf(ALIASED, AROUND), Plain);
    UnrecordedResetIsRefused(ALIASED, AROUND, 1, "T");
  }

  lemma NoResetForAlias(shape: Env)
    requires Valid(shape) && IsAliasedEnv(shape, NoReset)
    ensures OwnOf(ALIASED, shape, "A") == NoReset
  {
    AliasedIsValid(shape, NoReset);
    assert forall i | 0 <= i < |ALIASED| :: !MakesReset(shape, ALIASED[i], "A");
  }
}
