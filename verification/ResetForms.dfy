/** The forms of types: those people use, those Go refuses the code for, and those whose definitions go round. */
module ResetForms {
  import opened ResetTypes
  import opened ResetEmit
  import opened ResetMethods

  const BUILTINS := {"nil", "false", "new", "clear"}

  /** Nothing hides a predeclared name, nor the receiver. */
  predicate IsUncluttered(env: Env, scope: Scope) {
    SeesReceiver(scope, true) && forall name | name in BUILTINS :: Usable(env, scope, true, name)
  }

  /** The type can be written anywhere in the method. */
  predicate PrintsAnywhere(env: Env, scope: Scope, t: Type) {
    Writable(env, scope, true, t)
  }

  /**
   * The types people use: predeclared and type parameters, literals of any
   * kind, names of the package or another one that have Reset() or are defined
   * by a literal, and pointers to all these but slices; none of them with a
   * name that is a variable of the method.
   */
  ghost predicate IsOrdinary(env: Env, scope: Scope, t: Type, pointed: bool)
    requires Valid(env)
  {
    match t
    case Paren(x) => IsOrdinary(env, scope, x, pointed)
    case Ident(n) =>
      PrintsAnywhere(env, scope, t) && (n in env.types ==> IsOrdinaryDecl(env, scope, env.types[n], pointed))
    case Index(b, _) =>
      && PrintsAnywhere(env, scope, t)
      && (GenericName(b) in env.types ==> IsOrdinaryDecl(env, scope, env.types[GenericName(b)], pointed))
    case Selector(p, n) =>
      && PrintsAnywhere(env, scope, t)
      && !env.external(p, n).lookup.Failed? && (env.external(p, n).kind.IsSlice? ==> !pointed)
    case Star(x) => IsOrdinary(env, scope, x, true)
    case Slice(_) => !pointed
    case Array(_, _) => PrintsAnywhere(env, scope, t)
    case Struct(_, _) => PrintsAnywhere(env, scope, t)
    case Map(_, _) => true
    case Interface(_) => true
    case Other(_) => true
  }

  ghost predicate IsOrdinaryDecl(env: Env, scope: Scope, d: Decl, pointed: bool)
    requires Valid(env)
  {
    if d.HasMethod() then !d.alias && (d.marked || d.own.Plain?) && (pointed ==> !Under(env, d.def).Star?)
    else
      || d.alias || d.params != [] || d.def.Struct? || d.def.Map? || d.def.Interface? || d.def.Other?
      || (d.def.Slice? && !pointed)
      || (d.def.Array? && PrintsAnywhere(env, scope, d.def)) || (d.def.Ident? && IsBasic(d.def.name))
  }

  lemma {:induction false} OrdinaryTypesAreFine(env: Env, scope: Scope, t: Type, typ: Type, start: Start, depth: nat)
    requires Valid(env) && IsUncluttered(env, scope) && IsExact(t, typ)
    requires IsOrdinary(env, scope, typ, start != Plainly) && start != AtNamedPointer
    ensures Fine(env, scope, t, typ, start, depth)
    decreases typ
  {
    StripChangesNothing(env, t);
    StripChangesNothing(env, typ);
    match typ
    case Paren(x) => OrdinaryTypesAreFine(env, scope, t, x, start, depth);
    case Star(x) => OrdinaryTypesAreFine(env, scope, x, x, AtPointer, depth + 1);
    case Ident(n) =>
      if n in env.types {
        OrdinaryNamesAreFine(env, scope, t, typ, n, start, depth);
      }
    case Index(b, _) =>
      if GenericName(b) in env.types {
        OrdinaryNamesAreFine(env, scope, t, typ, GenericName(b), start, depth);
      }
    case _ =>
  }

  lemma OrdinaryNamesAreFine(env: Env, scope: Scope, t: Type, typ: Type, n: string, start: Start, depth: nat)
    requires Valid(env) && IsUncluttered(env, scope) && start != AtNamedPointer && n in env.types
    requires typ == Ident(n) || (typ.Index? && GenericName(typ.base) == n)
    requires IsExact(t, typ) && HasReset(env, t) == HasReset(env, typ) && Under(env, t) == Under(env, typ)
    requires PrintsAnywhere(env, scope, typ) && IsOrdinaryDecl(env, scope, env.types[n], start != Plainly)
    ensures FineName(env, scope, t, typ, n, start, depth)
  {
    LiteralsAreFine(env, scope, t, env.types[n].def, start, depth + 1);
    NamesOfInstance(typ, n);
  }

  lemma NamesOfInstance(t: Type, n: string)
    requires t == Ident(n) || (t.Index? && t.base.Ident? && t.base.name == n)
    ensures n in TypeNames(t)
  {
  }

  lemma LiteralsAreFine(env: Env, scope: Scope, t: Type, typ: Type, start: Start, depth: nat)
    requires Valid(env) && IsUncluttered(env, scope)
    ensures typ.Map? || typ.Interface? || typ.Other? ==> Fine(env, scope, t, typ, start, depth)
    ensures (typ.Array? || typ.Struct?) && PrintsAnywhere(env, scope, typ) ==> Fine(env, scope, t, typ, start, depth)
    ensures typ.Slice? ==> (Fine(env, scope, t, typ, start, depth) <==> start == Plainly)
  {
    assert Usable(env, scope, true, "clear") && Usable(env, scope, true, "nil");
  }

  // ---------------------------------------------------------------- fields Go refuses the code for

  function Defined(def: Type): Decl {
    Decl(def, false, [], false, false, NoReset)
  }

  ghost predicate IsRefused(env: Env, scope: Scope, name: string)
    requires Valid(env)
  {
    !Accepts(env, scope, false, EmitField(env, FieldVar(name, scope.fields(name))))
  }

  lemma RefusedExactlyWhenNotFine(env: Env, scope: Scope, name: string)
    requires Valid(env) && IsWhole(env, scope.fields(name))
    ensures IsRefused(env, scope, name) <==> !Fine(env, scope, scope.fields(name), scope.fields(name), Plainly, 0)
  {
    AcceptedExactlyWhenFine(env, scope, Field(name), scope.fields(name), scope.fields(name), Plainly, 0);
  }

  /** *p[:0] slices the pointer. */
  lemma PointerToSliceIsRefused(env: Env, scope: Scope, name: string, elem: Type)
    requires Valid(env) && scope.fields(name) == Star(Slice(elem))
    ensures IsRefused(env, scope, name)
  {
    RefusedExactlyWhenNotFine(env, scope, name);
  }

  lemma PointerToNamedSliceIsRefused(env: Env, scope: Scope, name: string, n: string, elem: Type)
    requires Valid(env) && scope.fields(name) == Star(Ident(n)) && n in env.types
    requires env.types[n] == Defined(Slice(elem))
    ensures IsRefused(env, scope, name)
  {
    RefusedExactlyWhenNotFine(env, scope, name);
    assert !Fine(env, scope, Ident(n), Slice(elem), AtPointer, 2);
    assert !Fine(env, scope, Ident(n), Ident(n), AtPointer, 1);
  }

  /** b{} is no value for a variable of type a. */
  lemma NameOfNamedStructIsRefused(env: Env, scope: Scope, name: string, a: string, b: string)
    requires Valid(env) && scope.fields(name) == Ident(a) && a in env.types && b in env.types
    requires env.types[a] == Defined(Ident(b)) && env.types[b].IsPlain() && env.types[b].def.Struct?
    ensures IsRefused(env, scope, name)
  {
    RefusedExactlyWhenNotFine(env, scope, name);
    assert !Fine(env, scope, Ident(a), Ident(b), Plainly, 1);
  }

  /** A name defined by the name of a slice is fine: no value of that name is needed. */
  lemma NameOfNamedSliceIsAccepted(env: Env, scope: Scope, name: string, a: string, b: string, elem: Type)
    requires Valid(env) && scope.fields(name) == Ident(a) && a in env.types && b in env.types
    requires env.types[a] == Defined(Ident(b)) && env.types[b] == Defined(Slice(elem))
    ensures !IsRefused(env, scope, name)
  {
    RefusedExactlyWhenNotFine(env, scope, name);
    assert Fine(env, scope, Ident(a), Slice(elem), Plainly, 2);
    assert Fine(env, scope, Ident(a), Ident(b), Plainly, 1);
  }

  /** A named pointer type has no methods. */
  lemma NamedPointerToResettableIsRefused(env: Env, scope: Scope, name: string, p: string, n: string)
    requires Valid(env) && scope.fields(name) == Ident(p) && p in env.types && n in env.types
    requires env.types[p] == Defined(Star(Ident(n))) && env.types[n].params == [] && env.types[n].HasMethod()
    ensures IsRefused(env, scope, name)
  {
    RefusedExactlyWhenNotFine(env, scope, name);
    assert !Fine(env, scope, Ident(n), Ident(n), AtNamedPointer, 2);
    assert !Fine(env, scope, Ident(p), Star(Ident(n)), Plainly, 1);
  }

  /** The methods of an alias of a pointer are not those of a pointer to it. */
  lemma PointerToPointerAliasIsRefused(env: Env, scope: Scope, name: string, a: string, x: Type)
    requires Valid(env) && scope.fields(name) == Star(Ident(a)) && a in env.types
    requires env.types[a] == Decl(Star(x), true, [], true, false, NoReset)
    ensures IsRefused(env, scope, name)
  {
    RefusedExactlyWhenNotFine(env, scope, name);
    assert Under(env, Ident(a)) == Under(env, Star(x)) == Star(x);
    assert !Fine(env, scope, Ident(a), Ident(a), AtPointer, 1);
  }

  /** Defined by a qualified, an instantiated or a parenthesised type: nil has to be a value of it. */
  lemma OtherDefinitionsAreRefusedExactlyWhenNotNilable(env: Env, scope: Scope, name: string, n: string)
    requires Valid(env) && scope.fields(name) == Ident(n) && n in env.types && env.types[n].IsPlain()
    requires env.types[n].def.Selector? || env.types[n].def.Index? || env.types[n].def.Paren?
    ensures IsRefused(env, scope, name)
        <==> !(Nilable(env, Under(env, env.types[n].def)) && Usable(env, scope, false, "nil"))
  {
    RefusedExactlyWhenNotFine(env, scope, name);
  }

  /**
   * type S iter.Seq[int]: nil is a value of a function type, whatever it is
   * instantiated with.
   */
  lemma ExternalInstanceIsRefusedExactlyWhenNotNilable(env: Env, scope: Scope, name: string, n: string, pkg: string,
                                                       generic: string, args: Opaque)
    requires Valid(env) && scope.fields(name) == Ident(n) && n in env.types
    requires env.types[n] == Defined(Index(Selector(pkg, generic), args))
    ensures IsRefused(env, scope, name)
        <==> env.external(pkg, generic).kind.IsValue? || !Usable(env, scope, false, "nil")
  {
    OtherDefinitionsAreRefusedExactlyWhenNotNilable(env, scope, name, n);
    assert Under(env, Selector(pkg, generic)) == Selector(pkg, generic);
  }

  /** A type imported without a qualifier cannot be written in the generated file. */
  lemma DotImportedNameIsRefused(env: Env, scope: Scope, name: string, x: string)
    requires Valid(env) && scope.fields(name) == Ident(x) && x in env.dotted && x !in scope.params
    ensures IsRefused(env, scope, name)
  {
    RefusedExactlyWhenNotFine(env, scope, name);
    assert x in TypeNames(Ident(x)) && !IsKnown(env, x);
  }

  /**
   * type J A, where A is an alias of the interface I: the value of I that is
   * assigned implements J.
   */
  lemma AliasOfInterfaceIsAcceptedExactlyWhenWritable(env: Env, scope: Scope, name: string, j: string, a: string,
                                                      i: string, body: Opaque)
    requires Valid(env) && scope.fields(name) == Ident(j) && j in env.types && a in env.types && i in env.types
    requires env.types[j] == Defined(Ident(a)) && env.types[i] == Defined(Interface(body))
    requires env.types[a] == Decl(Ident(i), true, [], false, false, NoReset)
    ensures !IsRefused(env, scope, name)
        <==> SeesReceiver(scope, true) && Writable(env, scope, true, Ident(a)) && Usable(env, scope, true, "new")
  {
    RefusedExactlyWhenNotFine(env, scope, name);
    assert Under(env, Ident(a)) == Under(env, Ident(i)) == Interface(body);
    assert Fine(env, scope, Ident(j), Ident(a), Plainly, 1) <==> UnknownFine(env, scope, Ident(j), Ident(a));
  }

  /** type B T, where T has Reset: B has it only if it gains it from what the struct embeds. */
  lemma NameOfResettableIsRefusedExactlyWhenNotPromoted(env: Env, scope: Scope, name: string, b: string, t: string)
    requires Valid(env) && scope.fields(name) == Ident(b) && b in env.types && t in env.types
    requires env.types[b] == Defined(Ident(t)) && env.types[t].HasMethod() && env.types[t].params == []
    ensures var u := Under(env, Ident(t)); IsRefused(env, scope, name) <==> !(u.Struct? && env.promotes(u))
  {
    RefusedExactlyWhenNotFine(env, scope, name);
    assert Fine(env, scope, Ident(b), Ident(t), Plainly, 1) <==> CallFine(env, Ident(b), Plainly);
    assert Normal(env, Ident(b)) == Ident(b) && Under(env, Ident(b)) == Under(env, Ident(t));
  }

  // ---------------------------------------------------------------- methods Go refuses

  /** d.x = d(0), where d is the receiver: the type of that name is out of sight. */
  lemma ReceiverHidesType(env: Env, n: string, i: nat, basic: string)
    requires IsPackage(env) && IsTarget(env, n) && i < |TargetFields(env, n)| && IsBasic(basic)
    requires TargetFields(env, n)[i].typ == Ident(ReceiverName(n))
    requires ReceiverName(n) in env.types && env.types[ReceiverName(n)] == Defined(Ident(basic))
    ensures EmitField(env, TargetFields(env, n)[i])
         == SetConverted(Field(TargetFields(env, n)[i].name), ReceiverName(n), Zero(basic))
    ensures !IsAccepted(env, n)
  {
    var f, d := TargetFields(env, n)[i], ReceiverName(n);
    assert !IsPredeclaredType(d);
    assert EmitField(env, f) == EmitNamed(env, Field(f.name), f.typ, f.typ, d, 0);
    assert EmitField(env, f) == EmitUnfolded(env, Field(f.name), f.typ, f.typ, d, 0);
    FieldAcceptedExactlyWhenFine(env, n, i);
    assert EmitFields(env, TargetFields(env, n))[i] == EmitField(env, TargetFields(env, n)[i]);
  }

  const NOWHERE := (p: string, n: string) => External(NotImported, false, IsValue, true)

  const D := Defined(Ident("int64"))
  const STRUCT_X :=
    Decl(Struct([Listed(["x"], Ident("d"))], Opaque("", {"d"}, {}, {})), false, [], false, true, NoReset)

  /** type d int64, and a marked type Data struct{ x d }. */
  const DATA := Env(map["d" := D, "Data" := STRUCT_X], NOWHERE,
                    {"d", "Data"}, {}, {}, (t: Type) => false, map["d" := 0, "Data" := 0])

  lemma DataFields()
    ensures IsTarget(DATA, "Data") && TargetFields(DATA, "Data") == [FieldVar("x", Ident("d"))]
  {
    var f := Listed(["x"], Ident("d"));
    assert ["x"][..0] == [];
    assert FieldsOfOne(f) == [FieldVar("x", Ident("d"))];
    assert [f][..0] == [];
  }

  lemma DataIsValid()
    ensures Valid(DATA)
  {
    assert Rank(DATA, D.def) == 0 && Rank(DATA, STRUCT_X.def) == 0;
    assert IsWhole(DATA, D.def) && IsWhole(DATA, STRUCT_X.def);
  }

  lemma DataIsPackage()
    ensures IsPackage(DATA)
  {
    DataFields();
    DataIsValid();
    assert forall n | n in DATA.types :: IsTarget(DATA, n) ==> n == "Data";
    assert IsWhole(DATA, Ident("d"));
  }

  lemma DataHasRoom()
    ensures IsTarget(DATA, "Data") && HasRoom(DATA, "Data")
  {
    DataFields();
    assert ReceiverName("Data") == "d" && "x" != "Reset";
  }

  lemma DataEmits()
    ensures IsTarget(DATA, "Data")
    ensures EmitFields(DATA, TargetFields(DATA, "Data")) == [SetConverted(Field("x"), "d", "0")]
  {
    DataFields();
    var f := FieldVar("x", Ident("d"));
    assert Zero("int64") == "0" && !IsBasic("d");
    assert EmitField(DATA, f) == EmitUnfolded(DATA, Field("x"), f.typ, f.typ, "d", 0);
    assert EmitFields(DATA, [f]) == [EmitField(DATA, f)];
  }

  /** The package of Data compiles; d.x = d(0) is emitted for its field, and Go refuses it. */
  lemma ReceiverOfDataHidesItsField()
    ensures IsPackage(DATA) && IsTarget(DATA, "Data") && HasRoom(DATA, "Data") && !IsAccepted(DATA, "Data")
    ensures EmitFields(DATA, TargetFields(DATA, "Data")) == [SetConverted(Field("x"), "d", "0")]
  {
    DataFields();
    DataIsPackage();
    DataHasRoom();
    DataEmits();
    assert ReceiverName("Data") == "d" && IsBasic("int64");
    ReceiverHidesType(DATA, "Data", 0, "int64");
  }

  /** if _ == nil cannot be written. */
  lemma UnderscoreReceiverIsRefused(env: Env, n: string)
    requires IsPackage(env) && IsTarget(env, n) && n != "" && n[0] == '_'
    ensures !IsAccepted(env, n)
  {
  }

  /** A field and a method cannot share the name Reset. */
  lemma FieldNamedResetIsRefused(env: Env, n: string, i: nat)
    requires IsPackage(env) && IsTarget(env, n) && i < |TargetFields(env, n)| && TargetFields(env, n)[i].name == "Reset"
    ensures !IsAccepted(env, n)
  {
  }

  // ---------------------------------------------------------------- definitions that go round

  /** What is emitted for type P *P when rounds more pointers are followed. */
  function SelfReset(e: Text, n: string, rounds: nat): Stmt
    decreases rounds
  {
    if rounds == 0 then EmitUnknown(e, Ident(n)) else IfNotNil(Group(e), SelfReset(Deref(Group(e)), n, rounds - 1))
  }

  lemma {:induction false} SelfPointerRounds(env: Env, e: Text, t: Type, n: string, rounds: nat)
    requires n in env.types && env.types[n] == Defined(Star(Ident(n))) && !IsPredeclaredType(n)
    requires rounds <= 5
    ensures Emit(env, e, t, Ident(n), 10 - 2 * rounds) == SelfReset(e, n, rounds)
    decreases rounds
  {
    var depth: nat := 10 - 2 * rounds;
    assert Emit(env, e, t, Ident(n), depth) == EmitUnfolded(env, e, t, Ident(n), n, depth);
    if rounds > 0 {
      var inner := Emit(env, Deref(Group(e)), Ident(n), Ident(n), depth + 2);
      assert Emit(env, e, t, Star(Ident(n)), depth + 1) == IfNotNil(Group(e), inner);
      SelfPointerRounds(env, Deref(Group(e)), Ident(n), n, rounds - 1);
    }
  }

  /** Five pointers of type P *P are followed; what the last points to is left to a check at run time. */
  lemma SelfPointerStops(env: Env, f: string, n: string)
    requires n in env.types && env.types[n] == Defined(Star(Ident(n))) && !IsPredeclaredType(n)
    ensures Emit(env, Field(f), Ident(n), Ident(n), 0) == SelfReset(Field(f), n, 5)
  {
    SelfPointerRounds(env, Field(f), Ident(n), n, 5);
  }

  /** How many checks for nil are nested. */
  function Nesting(s: Stmt): nat {
    if s.IfNotNil? then Nesting(s.body) + 1 else 0
  }

  function Stars(t: Type): nat {
    match t
    case Paren(x) => Stars(x)
    case Star(x) => Stars(x) + 1
    case _ => 0
  }

  function Times(k: nat, most: nat): nat {
    if k == 0 then 0 else Times(k - 1, most) + most
  }

  /** However the definitions of a package refer to each other, the code for a field nests no deeper than this. */
  lemma {:induction false} NestingIsBounded(env: Env, e: Text, t: Type, typ: Type, depth: nat, most: nat)
    requires forall n | n in env.types :: Stars(env.types[n].def) <= most
    ensures Nesting(Emit(env, e, t, typ, depth)) <= Stars(typ) + Times(Unfoldings(depth), most)
    decreases Unfoldings(depth), typ, 1
  {
    match typ
    case Paren(x) => NestingIsBounded(env, e, t, x, depth, most);
    case Ident(n) => NamedNestingIsBounded(env, e, t, typ, n, depth, most);
    case Index(b, _) => NamedNestingIsBounded(env, e, t, typ, GenericName(b), depth, most);
    case Star(x) =>
      var p := if depth > 0 || e.Deref? then Group(e) else e;
      NestingIsBounded(env, Deref(p), x, x, depth + 1, most);
    case _ =>
  }

  lemma {:induction false} NamedNestingIsBounded(env: Env, e: Text, t: Type, typ: Type, name: string, depth: nat,
                                                 most: nat)
    requires forall n | n in env.types :: Stars(env.types[n].def) <= most
    ensures Nesting(EmitNamed(env, e, t, typ, name, depth)) <= Times(Unfoldings(depth), most)
    decreases Unfoldings(depth), typ, 0
  {
    if IsFollowed(env, name, depth) {
      var def := env.types[name].def;
      FollowedIsDefined(env, e, t, typ, name, depth);
      NestingIsBounded(env, e, t, def, depth + 1, most);
      assert Unfoldings(depth) == Unfoldings(depth + 1) + 1;
    } else {
      FlatNesting(env, e, t, typ, name, depth);
    }
  }

  lemma FlatNesting(env: Env, e: Text, t: Type, typ: Type, name: string, depth: nat)
    requires !IsFollowed(env, name, depth)
    ensures Nesting(EmitNamed(env, e, t, typ, name, depth)) == 0
  {
    if IsUnfoldedName(env, name) {
      PlainIsDefined(env, e, t, typ, name, depth);
      FlatUnfolded(env, e, t, typ, name, depth);
    } else {
      FlatNamed(env, e, t, typ, name, depth);
    }
  }

  lemma FlatUnfolded(env: Env, e: Text, t: Type, typ: Type, name: string, depth: nat)
    requires IsUnfoldedName(env, name) && !IsFollowed(env, name, depth)
    ensures Nesting(EmitUnfolded(env, e, t, typ, name, depth)) == 0
  {
  }

  lemma FlatNamed(env: Env, e: Text, t: Type, typ: Type, name: string, depth: nat)
    requires !IsUnfoldedName(env, name)
    ensures Nesting(EmitNamed(env, e, t, typ, name, depth)) == 0
  {
  }
}
