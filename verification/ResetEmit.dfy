/**
 * The compiler of Reset methods: the statement it emits for a field of any
 * type, what the Go type checker says of it, and exactly when it is accepted.
 */
module ResetEmit {
  import opened Wrappers
  import opened ResetTypes

  const MAX_RESET_DEPTH := 8

  /** An expression as it is written: a field of the receiver, * in front, or parentheses around. */
  datatype Text = Field(name: string) | Deref(of: Text) | Group(of: Text)

  datatype Stmt =
    | SetZero(e: Text, zero: string)                    // e = 0
    | SetConverted(e: Text, name: string, zero: string) // e = name(0)
    | SetNil(e: Text)                                   // e = nil
    | SetEmpty(e: Text, t: Type)                        // e = t{}
    | SetNew(e: Text, t: Type)                          // e = *new(t)
    | Reslice(e: Text)                                  // e = e[:0]
    | Clear(e: Text)                                    // clear(e)
    | CallReset(e: Text, t: Type)                       // e.Reset(), without the * e may start with; e has type t
    | IfNotNil(p: Text, body: Stmt)
    | IfResetter(e: Text, otherwise: Stmt)              // the Reset() found for e at run time, or otherwise
    | Nothing(error: string)                            // no code: the error is recorded instead

  // ---------------------------------------------------------------- emission

  function Unfoldings(depth: nat): nat {
    if depth <= MAX_RESET_DEPTH then MAX_RESET_DEPTH + 1 - depth else 0
  }

  /** The statement for e, a variable of type t, looked at as one of type typ. */
  function Emit(env: Env, e: Text, t: Type, typ: Type, depth: nat): Stmt
    decreases Unfoldings(depth), typ, 1
  {
    match typ
    case Paren(x) => Emit(env, e, t, x, depth)
    case Ident(n) =>
      if IsBasic(n) && n !in env.types then SetZero(e, Zero(n))
      else if n == "error" || n == "any" then SetNil(e)
      else EmitNamed(env, e, t, typ, n, depth)
    case Index(b, _) => EmitNamed(env, e, t, typ, GenericName(b), depth)
    case Selector(_, _) => EmitExternal(env, e, t, typ)
    case Star(x) =>
      var p := if depth > 0 || e.Deref? then Group(e) else e;
      IfNotNil(p, Emit(env, Deref(p), x, x, depth + 1))
    case Slice(_) => Reslice(e)
    case Array(_, _) => SetEmpty(e, typ)
    case Map(_, _) => Clear(e)
    case Struct(_, _) => SetEmpty(e, typ)
    case Interface(_) => SetNil(e)
    case Other(_) => SetNil(e)
  }

  function EmitNamed(env: Env, e: Text, t: Type, typ: Type, name: string, depth: nat): Stmt
    decreases Unfoldings(depth), typ, 0
  {
    if name !in env.types then EmitUnknown(e, typ)
    else
      var d := env.types[name];
      if d.HasMethod() then CallReset(e, t)
      else if d.alias || d.params != [] then EmitUnknown(e, typ)
      else match d.def
        case Struct(_, _) => SetEmpty(e, typ)
        case Ident(_) => EmitUnfolded(env, e, t, typ, name, depth)
        case Array(_, _) => EmitUnfolded(env, e, t, typ, name, depth)
        case Slice(_) => EmitUnfolded(env, e, t, typ, name, depth)
        case Map(_, _) => EmitUnfolded(env, e, t, typ, name, depth)
        case Star(_) => EmitUnfolded(env, e, t, typ, name, depth)
        case _ => SetNil(e)
  }

  function EmitUnfolded(env: Env, e: Text, t: Type, typ: Type, name: string, depth: nat): Stmt
    requires name in env.types
    decreases Unfoldings(depth), typ, 0, 0
  {
    var def := env.types[name].def;
    if depth > MAX_RESET_DEPTH then EmitUnknown(e, typ)
    else if def.Ident? && IsBasic(def.name) then SetConverted(e, name, Zero(def.name))
    else Emit(env, e, t, def, depth + 1)
  }

  function EmitExternal(env: Env, e: Text, t: Type, typ: Type): Stmt
    requires typ.Selector?
  {
    var x := env.external(typ.pkg, typ.name);
    match x.lookup
    case Failed(error) => Nothing(error)
    case NotImported => EmitUnknown(e, typ)
    case Found =>
      if x.reset then CallReset(e, t)
      else match x.kind
        case IsMap => Clear(e)
        case IsSlice => Reslice(e)
        case _ => SetNew(e, typ)
  }

  function EmitUnknown(e: Text, typ: Type): Stmt {
    IfResetter(e, SetNew(e, typ))
  }

  /** A name with nothing more to it is emptied by what it is defined by. */
  lemma PlainIsDefined(env: Env, e: Text, t: Type, typ: Type, name: string, depth: nat)
    requires name in env.types && env.types[name].IsPlain()
    ensures var def := env.types[name].def;
            EmitNamed(env, e, t, typ, name, depth)
            == if def.Struct? then SetEmpty(e, typ)
               else if IsUnfolded(def) then EmitUnfolded(env, e, t, typ, name, depth)
               else SetNil(e)
  {
  }

  /** The other names are not looked through. */
  lemma NamedIsOneOf(env: Env, e: Text, t: Type, typ: Type, name: string, depth: nat)
    requires !IsUnfoldedName(env, name)
    ensures EmitNamed(env, e, t, typ, name, depth)
            == if name in env.types && env.types[name].HasMethod() then CallReset(e, t)
               else if name !in env.types || env.types[name].alias || env.types[name].params != [] then
                 EmitUnknown(e, typ)
               else if env.types[name].def.Struct? then SetEmpty(e, typ)
               else SetNil(e)
  {
  }

  predicate IsUnfoldedName(env: Env, name: string) {
    name in env.types && env.types[name].IsPlain() && IsUnfolded(env.types[name].def)
  }

  /** The generator goes on with the definition of the name. */
  predicate IsFollowed(env: Env, name: string, depth: nat) {
    && IsUnfoldedName(env, name) && depth <= MAX_RESET_DEPTH
    && !(env.types[name].def.Ident? && IsBasic(env.types[name].def.name))
  }

  lemma FollowedIsDefined(env: Env, e: Text, t: Type, typ: Type, name: string, depth: nat)
    requires IsFollowed(env, name, depth)
    ensures EmitNamed(env, e, t, typ, name, depth) == Emit(env, e, t, env.types[name].def, depth + 1)
  {
    PlainIsDefined(env, e, t, typ, name, depth);
  }

  /** The names looked through no further. */
  lemma FoldedIsDefined(env: Env, e: Text, t: Type, typ: Type, name: string, depth: nat)
    requires IsUnfoldedName(env, name) && !IsFollowed(env, name, depth)
    ensures EmitUnfolded(env, e, t, typ, name, depth)
            == if depth > MAX_RESET_DEPTH then EmitUnknown(e, typ)
               else SetConverted(e, name, Zero(env.types[name].def.name))
  {
  }

  // ---------------------------------------------------------------- whole methods

  datatype FieldVar = FieldVar(name: string, typ: Type)

  /** The name an embedded field goes by, empty if it has none. */
  function EmbeddedName(t: Type): string {
    var x := if t.Star? then t.elem else t;
    match x
    case Ident(n) => n
    case Selector(_, n) => n
    case Index(b, _) => EmbeddedName(b)
    case _ => ""
  }

  /** The fields of a struct, one by one; those declared as _ cannot be referred to. */
  function FieldsOf(decls: seq<FieldDecl>): seq<FieldVar> {
    if decls == [] then []
    else FieldsOf(decls[..|decls| - 1]) + FieldsOfOne(decls[|decls| - 1])
  }

  function FieldsOfOne(d: FieldDecl): seq<FieldVar> {
    match d
    case Embedded(t) => if EmbeddedName(t) == "" then [] else [FieldVar(EmbeddedName(t), t)]
    case Listed(names, t) => ListedFields(names, t)
  }

  function ListedFields(names: seq<string>, t: Type): seq<FieldVar> {
    if names == [] then []
    else
      var last := names[|names| - 1];
      ListedFields(names[..|names| - 1], t) + if last == "_" then [] else [FieldVar(last, t)]
  }

  /** The statements of a method, after the check for a nil receiver. */
  function EmitFields(env: Env, fields: seq<FieldVar>): seq<Stmt> {
    seq(|fields|, i requires 0 <= i < |fields| => EmitField(env, fields[i]))
  }

  function EmitField(env: Env, f: FieldVar): Stmt {
    Emit(env, Field(f.name), f.typ, f.typ, 0)
  }

  /** The fields of t, if t is a struct type that gets a method generated. */
  function Generated(env: Env, t: Type): Option<seq<FieldVar>> {
    match Strip(t)
    case Ident(n) => GeneratedFor(env, n)
    case Index(b, _) => GeneratedFor(env, GenericName(b))
    case _ => None
  }

  function GeneratedFor(env: Env, n: string): Option<seq<FieldVar>> {
    if n in env.types && env.types[n].marked && !env.types[n].alias && env.types[n].def.Struct?
    then Some(FieldsOf(env.types[n].def.fields)) else None
  }

  // ---------------------------------------------------------------- what Go makes of it

  /** The expressions Go reads in the text: a slice expression binds tighter than *. */
  datatype Expr = Variable(name: string) | Load(of: Expr) | Empty(of: Expr)

  function Read(e: Text): Expr {
    match e
    case Field(name) => Variable(name)
    case Deref(x) => Load(Read(x))
    case Group(x) => Read(x)
  }

  /** How e[:0] is read. */
  function ReadEmpty(e: Text): Expr {
    if e.Deref? then Load(ReadEmpty(e.of)) else Empty(Read(e))
  }

  /** Where a statement stands: the receiver, the type parameters, and the types of the receiver's fields. */
  datatype Scope = Scope(recv: string, params: seq<string>, fields: string -> Type)

  /** What the check at run time declares. */
  const GUARDS := {"resetter", "ok"}

  /** The variables in sight; guarded after a check at run time. */
  function Locals(scope: Scope, guarded: bool): set<string> {
    if guarded then {scope.recv} + GUARDS else {scope.recv}
  }

  predicate SeesReceiver(scope: Scope, guarded: bool) {
    guarded ==> scope.recv !in GUARDS
  }

  /** The predeclared name means what it means in Go. */
  predicate Usable(env: Env, scope: Scope, guarded: bool, name: string) {
    name !in env.declared && name !in Locals(scope, guarded) && name !in scope.params
  }

  predicate ZeroUsable(env: Env, scope: Scope, guarded: bool, zero: string) {
    zero == "false" ==> Usable(env, scope, guarded, zero)
  }

  /** The static type of an expression. */
  ghost function TypeOf(env: Env, scope: Scope, x: Expr): Option<Type>
    requires Valid(env)
  {
    match x
    case Variable(name) => Some(scope.fields(name))
    case Load(p) =>
      (match TypeOf(env, scope, p)
       case Some(t) => if Under(env, t).Star? then Some(Under(env, t).elem) else None
       case None => None)
    case Empty(s) =>
      (match TypeOf(env, scope, s)
       case Some(t) => Sliced(env, t)
       case None => None)
  }

  /** The type of s[:0]; a pointer can be sliced if it is one to an array. */
  ghost function Sliced(env: Env, t: Type): Option<Type>
    requires Valid(env)
  {
    var u := Under(env, t);
    if IsSliceType(env, u) || u == Ident("string") then Some(t)
    else if u.Array? then Some(Slice(u.elem))
    else if u.Star? && Under(env, u.elem).Array? then Some(Slice(Under(env, u.elem).elem))
    else None
  }

  /** Go accepts the statement. */
  ghost predicate Accepts(env: Env, scope: Scope, guarded: bool, s: Stmt)
    requires Valid(env)
    decreases s
  {
    SeesReceiver(scope, guarded) &&
    match s
    case SetZero(e, zero) =>
      var t := TypeOf(env, scope, Read(e));
      && t.Some? && Under(env, t.value).Ident? && IsConstantOf(Under(env, t.value).name, zero)
      && ZeroUsable(env, scope, guarded, zero)
    case SetConverted(e, name, zero) =>
      var t := TypeOf(env, scope, Read(e));
      var u := Under(env, Ident(name));
      && t.Some? && Assignable(env, t.value, Ident(name)) && u.Ident? && IsConstantOf(u.name, zero)
      && name !in Locals(scope, guarded) && ZeroUsable(env, scope, guarded, zero)
    case SetNil(e) =>
      var t := TypeOf(env, scope, Read(e));
      t.Some? && Nilable(env, Under(env, t.value)) && Usable(env, scope, guarded, "nil")
    case SetEmpty(e, v) =>
      var t := TypeOf(env, scope, Read(e));
      && t.Some? && Assignable(env, t.value, v) && (Under(env, v).Struct? || Under(env, v).Array?)
      && Prints(env, scope.params, Locals(scope, guarded), v)
    case SetNew(e, v) =>
      var t := TypeOf(env, scope, Read(e));
      && t.Some? && Assignable(env, t.value, v)
      && Prints(env, scope.params, Locals(scope, guarded), v) && Usable(env, scope, guarded, "new")
    case Reslice(e) =>
      var t, v := TypeOf(env, scope, Read(e)), TypeOf(env, scope, ReadEmpty(e));
      t.Some? && v.Some? && Assignable(env, t.value, v.value)
    case Clear(e) =>
      var t := TypeOf(env, scope, Read(e));
      && t.Some? && (IsMapType(env, Under(env, t.value)) || IsSliceType(env, Under(env, t.value)))
      && Usable(env, scope, guarded, "clear")
    case CallReset(e, _) =>
      if e.Deref? then
        // the method set of a pointer type that has no name, to something that is no pointer
        var p := TypeOf(env, scope, Read(e.of));
        && p.Some? && Normal(env, p.value).Star? && HasReset(env, Normal(env, p.value).elem)
        && !Under(env, Normal(env, p.value).elem).Star?
      else
        var t := TypeOf(env, scope, Read(e));
        t.Some? && HasReset(env, t.value)
    case IfNotNil(p, body) =>
      var t := TypeOf(env, scope, Read(p));
      && t.Some? && Nilable(env, Under(env, t.value)) && Usable(env, scope, guarded, "nil")
      && Accepts(env, scope, guarded, body)
    case IfResetter(e, otherwise) =>
      TypeOf(env, scope, Read(e)).Some? && Accepts(env, scope, true, otherwise)
    case Nothing(_) => false
  }

  // ---------------------------------------------------------------- when it is accepted

  /**
   * What the expression of the field starts with: no *, or a * applied to a
   * pointer whose type is written out or has a name.
   */
  datatype Start = Plainly | AtPointer | AtNamedPointer

  /** The variable has the very type looked at, not a name defined by it. */
  predicate IsExact(t: Type, typ: Type) {
    Strip(t) == Strip(typ)
  }

  /** How a pointer is used whose variable has type t. */
  function StartAt(t: Type, typ: Type): Start {
    if IsExact(t, typ) then AtPointer else AtNamedPointer
  }

  /** A variable of type t takes a value of type typ. */
  ghost predicate Takes(env: Env, t: Type, typ: Type)
    requires Valid(env)
  {
    IsExact(t, typ) || !IsNamed(env, typ) || IsInterfaceType(env, Under(env, typ))
  }

  /** The type can be written outside the check at run time, or inside it. */
  predicate Writable(env: Env, scope: Scope, guarded: bool, typ: Type) {
    Prints(env, scope.params, Locals(scope, guarded), typ)
  }

  /** A value of the type can be assigned to the variable, after the check at run time. */
  ghost predicate UnknownFine(env: Env, scope: Scope, t: Type, typ: Type)
    requires Valid(env)
  {
    && Takes(env, t, typ) && SeesReceiver(scope, true)
    && Writable(env, scope, true, typ) && Usable(env, scope, true, "new")
  }

  /** The variable's own type has a Reset() that can be called on it, or on what a pointer to it leads to. */
  ghost predicate CallFine(env: Env, t: Type, start: Start)
    requires Valid(env)
  {
    start != AtNamedPointer && HasReset(env, t) && (start == AtPointer ==> !Under(env, t).Star?)
  }

  /**
   * The types whose resetting Go accepts, for a variable of type t looked at as
   * one of type typ. Refused are a slice behind a pointer; a Reset method called
   * through a named pointer type, through a pointer to a pointer, on a name that
   * does not have it, or with arguments to give; values of a named type
   * assigned to another, unless it is an interface; nil for names defined by
   * something that cannot be nil; and any type that has to be written where one
   * of its names is hidden by the receiver, a type parameter or the check at
   * run time, or means nothing without the imports of its own file.
   */
  ghost predicate Fine(env: Env, scope: Scope, t: Type, typ: Type, start: Start, depth: nat)
    requires Valid(env)
    decreases Unfoldings(depth), typ, 1
  {
    match typ
    case Paren(x) => Fine(env, scope, t, x, start, depth)
    case Ident(n) =>
      if IsBasic(n) then ZeroUsable(env, scope, false, Zero(n))
      else if n == "error" || n == "any" then Usable(env, scope, false, "nil")
      else FineName(env, scope, t, typ, n, start, depth)
    case Index(b, _) => FineName(env, scope, t, typ, GenericName(b), start, depth)
    case Selector(p, n) => FineExternal(env, scope, t, typ, start)
    case Star(x) => Usable(env, scope, false, "nil") && Fine(env, scope, x, x, StartAt(t, typ), depth + 1)
    case Slice(_) => start == Plainly
    case Array(_, _) => Writable(env, scope, false, typ)
    case Struct(_, _) => Writable(env, scope, false, typ)
    case Map(_, _) => Usable(env, scope, false, "clear")
    case Interface(_) => Usable(env, scope, false, "nil")
    case Other(_) => Usable(env, scope, false, "nil")
  }

  ghost predicate FineExternal(env: Env, scope: Scope, t: Type, typ: Type, start: Start)
    requires Valid(env) && typ.Selector?
  {
    var x := env.external(typ.pkg, typ.name);
    match x.lookup
    case Failed(_) => false
    case NotImported => UnknownFine(env, scope, t, typ)
    case Found =>
      if x.reset then CallFine(env, t, start)
      else if x.kind.IsMap? then Usable(env, scope, false, "clear")
      else if x.kind.IsSlice? then start == Plainly
      else Takes(env, t, typ) && Writable(env, scope, false, typ) && Usable(env, scope, false, "new")
  }

  ghost predicate FineName(env: Env, scope: Scope, t: Type, typ: Type, name: string, start: Start, depth: nat)
    requires Valid(env)
    decreases Unfoldings(depth), typ, 0
  {
    if name !in env.types then UnknownFine(env, scope, t, typ)
    else
      var d := env.types[name];
      if d.HasMethod() then CallFine(env, t, start)
      else if d.alias || d.params != [] then UnknownFine(env, scope, t, typ)
      else if d.def.Struct? then IsExact(t, typ) && Writable(env, scope, false, typ)
      else if !IsUnfolded(d.def) then Nilable(env, Under(env, d.def)) && Usable(env, scope, false, "nil")
      else if depth > MAX_RESET_DEPTH then UnknownFine(env, scope, t, typ)
      else if d.def.Ident? && IsBasic(d.def.name) then
        IsExact(t, typ) && name !in Locals(scope, false) && ZeroUsable(env, scope, false, Zero(d.def.name))
      else Fine(env, scope, t, d.def, start, depth + 1)
  }

  /** t is the name typ, or a chain of names ending in typ, defines. */
  ghost predicate IsDefinedBy(env: Env, t: Type, typ: Type)
    requires Valid(env)
  {
    var n := Strip(t);
    && n.Ident? && n.name in env.types && env.types[n.name].IsPlain()
    && Rank(env, typ) <= env.rank[n.name]
  }

  /** The pointer that e = *p loads from has the type *t, or a name that cannot have methods. */
  ghost predicate PointerDescribes(env: Env, scope: Scope, p: Text, t: Type, start: Start)
    requires Valid(env)
  {
    var pt := TypeOf(env, scope, Read(p));
    && !p.Deref? && pt.Some?
    && match start
       case Plainly => false
       case AtPointer => Strip(pt.value) == Star(t)
       case AtNamedPointer => Normal(env, pt.value).Ident?
  }

  /** The variable e has static type t, is looked at as typ, and starts as told. */
  ghost predicate Describes(env: Env, scope: Scope, e: Text, t: Type, typ: Type, start: Start)
    requires Valid(env)
  {
    && TypeOf(env, scope, Read(e)) == Some(t)
    && Under(env, t) == Under(env, typ)
    && (IsExact(t, typ) || IsDefinedBy(env, t, typ))
    && (if e.Deref? then PointerDescribes(env, scope, e.of, t, start) else start == Plainly)
  }

  /** A variable of a defined type takes no value of another named type, unless that is an interface. */
  lemma AssignableExactlyWhen(env: Env, t: Type, typ: Type)
    requires Valid(env) && Under(env, t) == Under(env, typ) && (IsExact(t, typ) || IsDefinedBy(env, t, typ))
    ensures Assignable(env, t, typ) <==> Takes(env, t, typ)
  {
    StripChangesNothing(env, t);
    StripChangesNothing(env, typ);
    if !IsExact(t, typ) {
      DefinitionsDiffer(env, Strip(t).name, typ);
    }
  }

  /** Reset can be called exactly on variables whose own type has it, and through pointers that have no name. */
  lemma ResettableExactlyWhen(env: Env, scope: Scope, e: Text, t: Type, typ: Type, start: Start)
    requires Valid(env) && Describes(env, scope, e, t, typ, start)
    ensures Accepts(env, scope, false, CallReset(e, t)) <==> CallFine(env, t, start)
  {
    if e.Deref? {
      StripChangesNothing(env, TypeOf(env, scope, Read(e.of)).value);
    }
  }

  lemma SetExactlyWhen(env: Env, scope: Scope, guarded: bool, e: Text, t: Type, typ: Type, start: Start)
    requires Valid(env) && Describes(env, scope, e, t, typ, start)
    ensures Accepts(env, scope, guarded, SetNew(e, typ)) <==>
            && Takes(env, t, typ) && SeesReceiver(scope, guarded)
            && Writable(env, scope, guarded, typ) && Usable(env, scope, guarded, "new")
  {
    AssignableExactlyWhen(env, t, typ);
  }

  lemma UnknownExactlyWhen(env: Env, scope: Scope, e: Text, t: Type, typ: Type, start: Start)
    requires Valid(env) && Describes(env, scope, e, t, typ, start)
    ensures Accepts(env, scope, false, EmitUnknown(e, typ)) <==> UnknownFine(env, scope, t, typ)
  {
    SetExactlyWhen(env, scope, true, e, t, typ, start);
  }

  lemma EmptyExactlyWhen(env: Env, scope: Scope, e: Text, t: Type, typ: Type, start: Start)
    requires Valid(env) && Describes(env, scope, e, t, typ, start)
    requires (Under(env, typ).Struct? || Under(env, typ).Array?)
    ensures Accepts(env, scope, false, SetEmpty(e, typ)) <==>
            Takes(env, t, typ) && Writable(env, scope, false, typ)
  {
    AssignableExactlyWhen(env, t, typ);
  }

  lemma NilExactlyWhen(env: Env, scope: Scope, e: Text, t: Type, typ: Type, start: Start)
    requires Valid(env) && Describes(env, scope, e, t, typ, start)
    ensures Accepts(env, scope, false, SetNil(e)) <==> Nilable(env, Under(env, typ)) && Usable(env, scope, false, "nil")
  {
  }

  lemma ZeroExactlyWhen(env: Env, scope: Scope, e: Text, t: Type, name: string, start: Start)
    requires Valid(env) && Describes(env, scope, e, t, Ident(name), start) && IsBasic(name)
    ensures Accepts(env, scope, false, SetZero(e, Zero(name))) <==> ZeroUsable(env, scope, false, Zero(name))
  {
  }

  lemma ClearExactlyWhen(env: Env, scope: Scope, e: Text, t: Type, typ: Type, start: Start)
    requires Valid(env) && Describes(env, scope, e, t, typ, start) && IsMapType(env, Under(env, typ))
    ensures Accepts(env, scope, false, Clear(e)) <==> Usable(env, scope, false, "clear")
  {
  }

  lemma ConvertedExactlyWhen(env: Env, scope: Scope, e: Text, t: Type, name: string, start: Start)
    requires Valid(env) && Describes(env, scope, e, t, Ident(name), start) && name in env.types
    requires !env.types[name].alias
    requires env.types[name].def.Ident? && IsBasic(env.types[name].def.name)
    ensures var zero := Zero(env.types[name].def.name);
            Accepts(env, scope, false, SetConverted(e, name, zero)) <==>
            IsExact(t, Ident(name)) && name !in Locals(scope, false) && ZeroUsable(env, scope, false, zero)
  {
    AssignableExactlyWhen(env, t, Ident(name));
  }

  lemma ReslicedExactlyWhen(env: Env, scope: Scope, e: Text, t: Type, typ: Type, start: Start)
    requires Valid(env) && Describes(env, scope, e, t, typ, start) && IsSliceType(env, Under(env, typ))
    ensures Accepts(env, scope, false, Reslice(e)) <==> start == Plainly
  {
    if e.Deref? {
      var p := TypeOf(env, scope, Read(e.of)).value;
      assert Under(env, p).Star? && Under(env, p).elem == t;
      assert Sliced(env, p).None?;
      assert ReadEmpty(e) == Load(Empty(Read(e.of)));
      assert TypeOf(env, scope, ReadEmpty(e)).None?;
    } else {
      assert TypeOf(env, scope, ReadEmpty(e)) == Some(t);
    }
  }

  /** Go accepts the statement emitted for a variable exactly when its type is fine. */
  lemma {:induction false} AcceptedExactlyWhenFine(env: Env, scope: Scope, e: Text, t: Type, typ: Type, start: Start,
                                                   depth: nat)
    requires Valid(env) && IsWhole(env, typ) && Describes(env, scope, e, t, typ, start)
    ensures Accepts(env, scope, false, Emit(env, e, t, typ, depth)) <==> Fine(env, scope, t, typ, start, depth)
    decreases Unfoldings(depth), typ, 1
  {
    match typ
    case Paren(x) => AcceptedExactlyWhenFine(env, scope, e, t, x, start, depth);
    case Ident(n) =>
      if IsPredeclaredType(n) {
        LiteralAcceptedExactlyWhenFine(env, scope, e, t, typ, start, depth);
      } else {
        NamedAcceptedExactlyWhenFine(env, scope, e, t, typ, n, start, depth);
      }
    case Index(b, _) => NamedAcceptedExactlyWhenFine(env, scope, e, t, typ, GenericName(b), start, depth);
    case Selector(_, _) => ExternalAcceptedExactlyWhenFine(env, scope, e, t, typ, start, depth);
    case Star(x) => PointerAcceptedExactlyWhenFine(env, scope, e, t, x, start, depth);
    case _ => LiteralAcceptedExactlyWhenFine(env, scope, e, t, typ, start, depth);
  }

  /** Predeclared types, and those that are written out. */
  lemma LiteralAcceptedExactlyWhenFine(env: Env, scope: Scope, e: Text, t: Type, typ: Type, start: Start, depth: nat)
    requires Valid(env) && Describes(env, scope, e, t, typ, start)
    requires !typ.Paren? && !typ.Index? && !typ.Selector? && !typ.Star? && (typ.Ident? ==> IsPredeclaredType(typ.name))
    ensures Accepts(env, scope, false, Emit(env, e, t, typ, depth)) <==> Fine(env, scope, t, typ, start, depth)
  {
    match typ
    case Ident(n) =>
      assert n !in env.types;
      if IsBasic(n) {
        ZeroExactlyWhen(env, scope, e, t, n, start);
      } else {
        NilExactlyWhen(env, scope, e, t, typ, start);
      }
    case Slice(_) => ReslicedExactlyWhen(env, scope, e, t, typ, start);
    case Map(_, _) => ClearExactlyWhen(env, scope, e, t, typ, start);
    case Interface(_) => NilExactlyWhen(env, scope, e, t, typ, start);
    case Other(_) => NilExactlyWhen(env, scope, e, t, typ, start);
    case _ => EmptyExactlyWhen(env, scope, e, t, typ, start);
  }

  lemma DescribesPointee(env: Env, scope: Scope, e: Text, p: Text, t: Type, x: Type, start: Start)
    requires Valid(env) && Describes(env, scope, e, t, Star(x), start)
    requires p == Group(e) || (p == e && !e.Deref?)
    ensures TypeOf(env, scope, Read(p)) == Some(t) && Under(env, t) == Star(x)
    ensures Describes(env, scope, Deref(p), x, x, StartAt(t, Star(x)))
  {
    StripChangesNothing(env, t);
  }

  lemma {:induction false} PointerAcceptedExactlyWhenFine(env: Env, scope: Scope, e: Text, t: Type, x: Type,
                                                          start: Start, depth: nat)
    requires Valid(env) && IsWhole(env, x) && Describes(env, scope, e, t, Star(x), start)
    ensures Accepts(env, scope, false, Emit(env, e, t, Star(x), depth)) <==> Fine(env, scope, t, Star(x), start, depth)
    decreases Unfoldings(depth), x, 2
  {
    var p := if depth > 0 || e.Deref? then Group(e) else e;
    DescribesPointee(env, scope, e, p, t, x, start);
    AcceptedExactlyWhenFine(env, scope, Deref(p), x, x, StartAt(t, Star(x)), depth + 1);
  }

  lemma ExternalAcceptedExactlyWhenFine(env: Env, scope: Scope, e: Text, t: Type, typ: Type, start: Start, depth: nat)
    requires Valid(env) && typ.Selector? && Describes(env, scope, e, t, typ, start)
    ensures Accepts(env, scope, false, Emit(env, e, t, typ, depth)) <==> Fine(env, scope, t, typ, start, depth)
  {
    var x := env.external(typ.pkg, typ.name);
    if x.lookup.NotImported? {
      UnknownExactlyWhen(env, scope, e, t, typ, start);
    } else if x.lookup.Found? {
      FoundAcceptedExactlyWhenFine(env, scope, e, t, typ, start);
    }
  }

  lemma FoundAcceptedExactlyWhenFine(env: Env, scope: Scope, e: Text, t: Type, typ: Type, start: Start)
    requires Valid(env) && typ.Selector? && Describes(env, scope, e, t, typ, start)
    requires env.external(typ.pkg, typ.name).lookup.Found?
    ensures Accepts(env, scope, false, EmitExternal(env, e, t, typ)) <==> FineExternal(env, scope, t, typ, start)
  {
    var x := env.external(typ.pkg, typ.name);
    if x.reset {
      ResettableExactlyWhen(env, scope, e, t, typ, start);
    } else if x.kind.IsSlice? {
      ReslicedExactlyWhen(env, scope, e, t, typ, start);
    } else if x.kind.IsMap? {
      ClearExactlyWhen(env, scope, e, t, typ, start);
    } else {
      SetExactlyWhen(env, scope, false, e, t, typ, start);
    }
  }

  lemma {:induction false} NamedAcceptedExactlyWhenFine(env: Env, scope: Scope, e: Text, t: Type, typ: Type,
                                                        name: string, start: Start, depth: nat)
    requires Valid(env) && IsWhole(env, typ) && Describes(env, scope, e, t, typ, start)
    requires (typ == Ident(name) && !IsPredeclaredType(name)) || (typ.Index? && GenericName(typ.base) == name)
    ensures Accepts(env, scope, false, EmitNamed(env, e, t, typ, name, depth))
        <==> FineName(env, scope, t, typ, name, start, depth)
    decreases Unfoldings(depth), typ, 0
  {
    if name !in env.types {
      UnknownExactlyWhen(env, scope, e, t, typ, start);
    } else {
      var d := env.types[name];
      if d.HasMethod() {
        ResettableExactlyWhen(env, scope, e, t, typ, start);
      } else if d.alias || d.params != [] {
        UnknownExactlyWhen(env, scope, e, t, typ, start);
      } else if d.def.Struct? {
        EmptyExactlyWhen(env, scope, e, t, typ, start);
      } else if !IsUnfolded(d.def) {
        NilExactlyWhen(env, scope, e, t, typ, start);
      } else {
        UnfoldedAcceptedExactlyWhenFine(env, scope, e, t, name, start, depth);
      }
    }
  }

  lemma {:induction false} UnfoldedAcceptedExactlyWhenFine(env: Env, scope: Scope, e: Text, t: Type, name: string,
                                                           start: Start, depth: nat)
    requires Valid(env) && Describes(env, scope, e, t, Ident(name), start)
    requires name in env.types && env.types[name].IsPlain() && IsUnfolded(env.types[name].def)
    ensures Accepts(env, scope, false, EmitUnfolded(env, e, t, Ident(name), name, depth))
            <==> FineName(env, scope, t, Ident(name), name, start, depth)
    decreases Unfoldings(depth), Ident(name), 0, 0
  {
    var def := env.types[name].def;
    if depth > MAX_RESET_DEPTH {
      UnknownExactlyWhen(env, scope, e, t, Ident(name), start);
    } else if def.Ident? && IsBasic(def.name) {
      ConvertedExactlyWhen(env, scope, e, t, name, start);
    } else {
      StripChangesNothing(env, t);
      AcceptedExactlyWhenFine(env, scope, e, t, def, start, depth + 1);
    }
  }

  /** A definition the generator looks through. */
  predicate IsUnfolded(def: Type) {
    def.Ident? || def.Array? || def.Slice? || def.Map? || def.Star?
  }
}
