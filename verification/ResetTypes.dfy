/**
 * Go type expressions and the declarations of one package, as far as the Reset
 * generator and the Go type checker look at them.
 */
module ResetTypes {

  /** A piece of source as it is written, and what it refers to: types, constants and functions, and packages. */
  datatype Opaque = Opaque(text: string, types: set<string>, values: set<string>, packages: set<string>)

  /** The base of an instantiation is a plain or a qualified name. */
  datatype Type =
    | Paren(inner: Type)
    | Ident(name: string)
    | Index(base: Type, args: Opaque)
    | Selector(pkg: string, name: string)
    | Star(elem: Type)
    | Array(len: Opaque, elem: Type)
    | Slice(elem: Type)
    | Map(key: Type, elem: Type)
    | Struct(fields: seq<FieldDecl>, body: Opaque)
    | Interface(body: Opaque)
    | Other(body: Opaque) // a function or a channel

  datatype FieldDecl = Listed(names: seq<string>, typ: Type) | Embedded(typ: Type)

  /** The method named Reset written for a type, and whether it can be called without arguments. */
  datatype ResetMethod = NoReset | Plain | WithArguments

  /**
   * One type declaration; marked ones are structs that get a method generated.
   * recorded tells whether the generator has found a Reset whose receiver is
   * written with this name. own is the Reset Go takes to be the type's, however
   * its receiver is written: through an alias or in parentheses, too. An alias
   * has none of its own.
   */
  datatype Decl = Decl(def: Type, alias: bool, params: seq<string>, recorded: bool, marked: bool, own: ResetMethod) {
    /** The generator counts on a method. */
    predicate HasMethod() {
      marked || recorded
    }

    /** Defined by def, with nothing more to it. */
    predicate IsPlain() {
      !alias && params == [] && !HasMethod()
    }
  }

  /** What the generator finds out about a qualified name. */
  datatype Lookup = Found | NotImported | Failed(error: string)
  datatype Kind = IsMap | IsSlice | IsInterface | IsNilable | IsValue

  /**
   * A type of another package: what looking it up gives, whether a pointer to
   * it has Reset(), its underlying kind, and whether it is a type of its own or
   * an alias of one without a name.
   */
  datatype External = External(lookup: Lookup, reset: bool, kind: Kind, named: bool)

  /**
   * The declarations of a package, as seen from one of its files. declared are
   * all names the package declares, types or not; dotted are the types some
   * file imports without a qualifier, which external knows by the empty one;
   * imported are the packages the generated file imports under the names they
   * have in that file. promotes tells of a struct type whether it gains a
   * Reset() from what it embeds. Go refuses a type that is defined by itself, so
   * there is an order in which the declarations can be settled: rank.
   */
  datatype Env = Env(types: map<string, Decl>, external: (string, string) -> External, declared: set<string>,
                     dotted: set<string>, imported: set<string>, promotes: Type -> bool, rank: map<string, nat>)

  /** The literal of the zero value of a predeclared type, empty for any other name. */
  function Zero(name: string): string {
    if name == "bool" then "false"
    else if name == "string" then "\"\""
    else if name in NUMBERS then "0"
    else ""
  }

  const NUMBERS := {
    "int", "int8", "int16", "int32", "int64", "uint", "uint8", "uint16", "uint32", "uint64", "uintptr",
    "byte", "rune", "float32", "float64", "complex64", "complex128" }

  predicate IsBasic(name: string) {
    Zero(name) != ""
  }

  /** Go takes the literal for a constant of the predeclared type. */
  predicate IsConstantOf(name: string, literal: string) {
    if name == "bool" then literal in {"true", "false"}
    else if name == "string" then |literal| >= 2 && literal[0] == '"' && literal[|literal| - 1] == '"'
    else name in NUMBERS && literal != "" && forall i | 0 <= i < |literal| :: '0' <= literal[i] <= '9'
  }

  /** What a variable holds once the literal is assigned to it: zero for the zero value of its type. */
  function BitsOf(literal: string): int {
    if literal == "0" || literal == "false" || literal == "\"\"" then 0 else 1
  }

  /** Exactly the predeclared types have a literal: a constant of the type that is its zero value. */
  lemma ZeroIsZeroConstant(name: string)
    ensures IsBasic(name) <==> name == "bool" || name == "string" || name in NUMBERS
    ensures IsBasic(name) ==> IsConstantOf(name, Zero(name)) && BitsOf(Zero(name)) == 0
  {
  }

  /** The generic type an instantiation names, empty for one of another package. */
  function GenericName(base: Type): string {
    if base.Ident? then base.name else ""
  }

  function Rank(env: Env, t: Type): nat {
    match t
    case Paren(x) => Rank(env, x)
    case Ident(n) => if n in env.rank then env.rank[n] + 1 else 0
    case Index(b, _) => if GenericName(b) in env.rank then env.rank[GenericName(b)] + 1 else Rank(env, b)
    case _ => 0
  }

  /** Exactly the names of generic types are instantiated. */
  predicate IsWhole(env: Env, t: Type) {
    match t
    case Paren(x) => IsWhole(env, x)
    case Star(x) => IsWhole(env, x)
    case Ident(n) => n in env.types ==> env.types[n].params == []
    case Index(b, _) => GenericName(b) in env.types ==> env.types[GenericName(b)].params != []
    case _ => true
  }

  predicate IsPredeclaredType(n: string) {
    IsBasic(n) || n == "error" || n == "any"
  }

  /** The predeclared names that are no types a field can have. */
  const PREDECLARED := {
    "comparable", "true", "false", "iota", "nil", "append", "cap", "clear", "close", "complex", "copy", "delete",
    "imag", "len", "make", "max", "min", "new", "panic", "print", "println", "real", "recover" }

  /** The package compiles without its generated methods, and redeclares no predeclared type. */
  ghost predicate Valid(env: Env) {
    && env.types.Keys <= env.declared && "" !in env.declared
    && env.dotted !! env.declared
    && (forall n | n in env.declared :: !IsPredeclaredType(n)) && (forall n | n in env.dotted :: !IsPredeclaredType(n))
    && env.dotted !! PREDECLARED
    && (forall n | n in env.types ::
          IsWhole(env, env.types[n].def) && (env.types[n].marked ==> env.types[n].def.Struct?))
    && env.rank.Keys == env.types.Keys
    && (forall n | n in env.types :: Rank(env, env.types[n].def) <= env.rank[n])
  }

  // ---------------------------------------------------------------- names

  /** The types a type refers to by name when it is written, other than through a package. */
  function TypeNames(t: Type): set<string> {
    match t
    case Paren(x) => TypeNames(x)
    case Ident(n) => {n}
    case Index(b, args) => TypeNames(b) + args.types
    case Selector(_, _) => {}
    case Star(x) => TypeNames(x)
    case Array(len, x) => len.types + TypeNames(x)
    case Slice(x) => TypeNames(x)
    case Map(k, x) => TypeNames(k) + TypeNames(x)
    case Struct(_, body) => body.types
    case Interface(body) => body.types
    case Other(body) => body.types
  }

  /** The constants and functions it refers to, in the lengths of arrays. */
  function ValueNames(t: Type): set<string> {
    match t
    case Paren(x) => ValueNames(x)
    case Ident(_) => {}
    case Index(b, args) => ValueNames(b) + args.values
    case Selector(_, _) => {}
    case Star(x) => ValueNames(x)
    case Array(len, x) => len.values + ValueNames(x)
    case Slice(x) => ValueNames(x)
    case Map(k, x) => ValueNames(k) + ValueNames(x)
    case Struct(_, body) => body.values
    case Interface(body) => body.values
    case Other(body) => body.values
  }

  function Packages(t: Type): set<string> {
    match t
    case Paren(x) => Packages(x)
    case Ident(_) => {}
    case Index(b, args) => Packages(b) + args.packages
    case Selector(p, _) => {p}
    case Star(x) => Packages(x)
    case Array(len, x) => len.packages + Packages(x)
    case Slice(x) => Packages(x)
    case Map(k, x) => Packages(k) + Packages(x)
    case Struct(_, body) => body.packages
    case Interface(body) => body.packages
    case Other(body) => body.packages
  }

  /** The name means something in a file without unqualified imports. */
  predicate IsKnown(env: Env, n: string) {
    n in env.declared || IsPredeclaredType(n) || n in PREDECLARED
  }

  /**
   * Written in a method of the generated file, with these type parameters and
   * local variables, the type means what it means where it was declared.
   */
  predicate Prints(env: Env, params: seq<string>, locals: set<string>, t: Type) {
    && (forall n | n in TypeNames(t) :: n !in locals && (n in params || IsKnown(env, n)))
    && (forall n | n in ValueNames(t) :: n !in locals && n !in params && IsKnown(env, n))
    && (forall p | p in Packages(t) :: p !in locals && p !in params && p in env.imported)
  }

  // ---------------------------------------------------------------- types

  function Strip(t: Type): Type {
    if t.Paren? then Strip(t.inner) else t
  }

  /** The type t denotes, parentheses and aliases resolved. */
  ghost function Normal(env: Env, t: Type): Type
    requires Valid(env)
    decreases Rank(env, t), t
  {
    match t
    case Paren(x) => Normal(env, x)
    case Ident(n) => if n in env.types && env.types[n].alias then Normal(env, env.types[n].def) else t
    case _ => t
  }

  /** The underlying type; of an instantiation, up to its type arguments. */
  ghost function Under(env: Env, t: Type): Type
    requires Valid(env)
    decreases Rank(env, t), t
  {
    match t
    case Paren(x) => Under(env, x)
    case Ident(n) => if n in env.types then Under(env, env.types[n].def) else t
    case Index(b, _) => if GenericName(b) in env.types then Under(env, env.types[GenericName(b)].def) else Under(env, b)
    case _ => t
  }

  /** The type has a name of its own, or is a type parameter. */
  ghost predicate IsNamed(env: Env, t: Type)
    requires Valid(env)
    decreases Rank(env, t), t
  {
    match t
    case Paren(x) => IsNamed(env, x)
    case Ident(n) =>
      if n in env.types then !env.types[n].alias || IsNamed(env, env.types[n].def)
      else if n in env.dotted then env.external("", n).named
      else n != "any"
    case Index(b, _) =>
      if GenericName(b) in env.types then
        !env.types[GenericName(b)].alias || IsNamed(env, env.types[GenericName(b)].def)
      else IsNamed(env, b)
    case Selector(p, n) => env.external(p, n).named
    case _ => false
  }

  /** The kind of an underlying type that is declared in another package. */
  function KindOf(env: Env, u: Type): Kind {
    match u
    case Selector(p, n) => env.external(p, n).kind
    case Ident(n) => if n in env.dotted then env.external("", n).kind else IsValue
    case _ => IsValue
  }

  predicate IsInterfaceType(env: Env, u: Type) {
    u.Interface? || u == Ident("error") || u == Ident("any") || KindOf(env, u).IsInterface?
  }

  /**
   * A value of type v can be assigned to a variable of type t, as far as types
   * with one underlying type are concerned: a value of an interface type
   * implements every other interface type with the same methods.
   */
  ghost predicate Assignable(env: Env, t: Type, v: Type)
    requires Valid(env)
  {
    || Normal(env, t) == Normal(env, v)
    || (Under(env, t) == Under(env, v)
        && (!IsNamed(env, t) || !IsNamed(env, v) || IsInterfaceType(env, Under(env, t))))
  }

  /** nil can be assigned to a variable of an underlying type. */
  predicate Nilable(env: Env, u: Type) {
    u.Star? || u.Slice? || u.Map? || u.Other? || IsInterfaceType(env, u) || !KindOf(env, u).IsValue?
  }

  predicate IsSliceType(env: Env, u: Type) {
    u.Slice? || KindOf(env, u).IsSlice?
  }

  predicate IsMapType(env: Env, u: Type) {
    u.Map? || KindOf(env, u).IsMap?
  }

  /** A variable of the declared type has Reset(): generated, written for it, or gained from what it embeds. */
  ghost predicate NameHasReset(env: Env, n: string)
    requires Valid(env) && n in env.types
  {
    var d := env.types[n];
    && !d.alias
    && (d.marked || d.own.Plain? || (d.own.NoReset? && Under(env, d.def).Struct? && env.promotes(Under(env, d.def))))
  }

  ghost predicate ResolvedHasReset(env: Env, n: Type)
    requires Valid(env)
  {
    match n
    case Ident(m) => m in env.types && NameHasReset(env, m)
    case Index(b, _) => GenericName(b) in env.types && NameHasReset(env, GenericName(b))
    case Selector(p, m) => env.external(p, m).reset
    case Struct(_, _) => env.promotes(n)
    case _ => false
  }

  /** Reset() can be called on a variable of type t: of the type it denotes, or the type that is a pointer to. */
  ghost predicate HasReset(env: Env, t: Type)
    requires Valid(env)
  {
    var n := Normal(env, t);
    if n.Star? then ResolvedHasReset(env, Normal(env, n.elem)) && !Under(env, n.elem).Star?
    else ResolvedHasReset(env, n)
  }

  /** The declared type whose method a receiver of type t makes, empty if it is none of the package. */
  ghost function BaseOf(env: Env, t: Type): string
    requires Valid(env)
  {
    var n := Normal(env, t);
    var x := if n.Star? then Normal(env, n.elem) else n;
    match x
    case Ident(m) => m
    case Index(b, _) => GenericName(b)
    case _ => ""
  }

  // ---------------------------------------------------------------- facts

  lemma {:induction false} StripChangesNothing(env: Env, t: Type)
    requires Valid(env)
    ensures Normal(env, Strip(t)) == Normal(env, t) && Under(env, Strip(t)) == Under(env, t)
    ensures HasReset(env, Strip(t)) == HasReset(env, t) && Rank(env, Strip(t)) == Rank(env, t)
    ensures IsNamed(env, Strip(t)) == IsNamed(env, t)
  {
    if t.Paren? {
      StripChangesNothing(env, t.inner);
    }
  }

  lemma {:induction false} NormalIsSettledEarlier(env: Env, t: Type)
    requires Valid(env)
    ensures Rank(env, Normal(env, t)) <= Rank(env, t) && Under(env, Normal(env, t)) == Under(env, t)
    ensures !Normal(env, t).Paren?
    decreases Rank(env, t), t
  {
    match t
    case Paren(x) => NormalIsSettledEarlier(env, x);
    case Ident(n) =>
      if n in env.types && env.types[n].alias {
        NormalIsSettledEarlier(env, env.types[n].def);
      }
    case _ =>
  }

  /** A declared name is not the type it is defined by, however many names lie between. */
  lemma DefinitionsDiffer(env: Env, n: string, t: Type)
    requires Valid(env) && n in env.types && Rank(env, t) <= env.rank[n]
    ensures Normal(env, t) != Ident(n)
  {
    NormalIsSettledEarlier(env, t);
  }
}
