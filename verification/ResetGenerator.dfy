/** The generator at work: it appends text to a buffer, and the text reads as the statements it stands for. */
module ResetGenerator {
  import opened Wrappers
  import opened ResetTypes
  import opened ResetEmit
  import opened ResetMethods

  // ---------------------------------------------------------------- the text of a statement

  function ShowType(t: Type): string {
    match t
    case Paren(x) => "(" + ShowType(x) + ")"
    case Ident(n) => n
    case Index(b, args) => ShowType(b) + "[" + args.text + "]"
    case Selector(p, n) => p + "." + n
    case Star(x) => "*" + ShowType(x)
    case Array(len, x) => "[" + len.text + "]" + ShowType(x)
    case Slice(x) => "[]" + ShowType(x)
    case Map(k, x) => "map[" + ShowType(k) + "]" + ShowType(x)
    case Struct(_, body) => body.text
    case Interface(body) => body.text
    case Other(body) => body.text
  }

  function ShowText(recv: string, e: Text): string {
    match e
    case Field(n) => recv + "." + n
    case Deref(x) => "*" + ShowText(recv, x)
    case Group(x) => "(" + ShowText(recv, x) + ")"
  }

  /** A pointer to the variable e: what e loads from, or its address. */
  function ShowAddress(recv: string, e: Text): string {
    if e.Deref? then ShowText(recv, e.of) else "&" + ShowText(recv, e)
  }

  function ShowTarget(recv: string, e: Text): string {
    ShowText(recv, if e.Deref? then e.of else e)
  }

  function Show(recv: string, s: Stmt): string {
    match s
    case SetZero(e, zero) => ShowText(recv, e) + " = " + zero + "\n"
    case SetConverted(e, name, zero) => ShowText(recv, e) + " = " + name + "(" + zero + ")\n"
    case SetNil(e) => ShowText(recv, e) + " = nil\n"
    case SetEmpty(e, t) => ShowText(recv, e) + " = " + ShowType(t) + "{}\n"
    case SetNew(e, t) => ShowText(recv, e) + " = *new(" + ShowType(t) + ")\n"
    case Reslice(e) => ShowText(recv, e) + " = " + ShowText(recv, e) + "[:0]\n"
    case Clear(e) => "clear(" + ShowText(recv, e) + ")\n"
    case CallReset(e, _) => ShowTarget(recv, e) + ".Reset()\n"
    case IfNotNil(p, body) => "if " + ShowText(recv, p) + " != nil {\n" + Show(recv, body) + "}\n"
    case IfResetter(e, otherwise) =>
      "if resetter, ok := any(" + ShowAddress(recv, e) + ").(interface{ Reset() }); ok {\nresetter.Reset()\n} else {\n"
      + Show(recv, otherwise) + "}\n"
    case Nothing(_) => ""
  }

  function ShowAll(recv: string, body: seq<Stmt>): string {
    if body == [] then "" else ShowAll(recv, body[..|body| - 1]) + Show(recv, body[|body| - 1])
  }

  /** The error a statement stands for. */
  function ErrorOf(s: Stmt): Option<string> {
    match s
    case Nothing(error) => Some(error)
    case IfNotNil(_, body) => ErrorOf(body)
    case _ => None
  }

  function FirstError(body: seq<Stmt>): Option<string> {
    if body == [] then None
    else
      var before := FirstError(body[..|body| - 1]);
      if before.Some? then before else ErrorOf(body[|body| - 1])
  }

  /** The error kept is the first there is, and none only if no statement stands for one. */
  lemma {:induction false} FirstErrorIsFirst(body: seq<Stmt>, i: nat)
    requires i < |body| && ErrorOf(body[i]).Some? && forall j | 0 <= j < i :: ErrorOf(body[j]).None?
    ensures FirstError(body) == ErrorOf(body[i])
  {
    var front := body[..|body| - 1];
    if i < |front| {
      FirstErrorIsFirst(front, i);
    } else {
      NoErrorAtAll(front);
    }
  }

  lemma {:induction false} NoErrorAtAll(body: seq<Stmt>)
    requires forall j | 0 <= j < |body| :: ErrorOf(body[j]).None?
    ensures FirstError(body).None?
  {
    if body != [] {
      NoErrorAtAll(body[..|body| - 1]);
    }
  }

  /** A type that cannot be looked up is an error, behind however many pointers. */
  lemma FailedLookupIsError(env: Env, e: Text, t: Type, typ: Type, depth: nat, error: string)
    requires typ.Selector? && env.external(typ.pkg, typ.name).lookup == Failed(error)
    ensures ErrorOf(Emit(env, e, t, typ, depth)) == Some(error)
    ensures depth == 0 ==> ErrorOf(Emit(env, e, Star(t), Star(typ), depth)) == Some(error)
  {
  }

  /** Receivers are named by a letter. */
  predicate IsReceiver(recv: string) {
    recv != "" && IsNameChar(recv[0])
  }

  predicate IsNameChar(c: char) {
    'a' <= c <= 'z' || 'A' <= c <= 'Z' || '0' <= c <= '9' || c == '_'
  }

  lemma StarsShow(recv: string, e: Text)
    requires IsReceiver(recv)
    ensures ShowText(recv, e) != "" && (ShowText(recv, e)[0] == '*' <==> e.Deref?)
    ensures e.Deref? ==> ShowText(recv, e)[1..] == ShowText(recv, e.of)
  {
  }

  // ---------------------------------------------------------------- the generator

  class Generator {
    const env: Env
    var buf: string
    var recv: string
    var err: Option<string>

    constructor (env: Env)
      ensures this.env == env && buf == "" && err == None
    {
      this.env := env;
      buf := "";
      recv := "";
      err := None;
    }

    /** Keeps the first error. */
    method Fail(error: string)
      modifies this`err
      ensures err == if old(err).Some? then old(err) else Some(error)
    {
      if err.None? {
        err := Some(error);
      }
    }

    method ResetUnknown(expr: string, typ: Type, ghost e: Text)
      requires IsReceiver(recv) && expr == ShowText(recv, e)
      modifies this`buf
      ensures buf == old(buf) + Show(recv, EmitUnknown(e, typ))
    {
      StarsShow(recv, e);
      var addr := "&" + expr;
      if expr[0] == '*' {
        addr := expr[1..];
      }
      assert addr == ShowAddress(recv, e);
      UnknownShows(recv, e, typ);
      buf := buf + ("if resetter, ok := any(" + addr + ").(interface{ Reset() }); ok {\nresetter.Reset()\n} else {\n"
                    + (expr + " = *new(" + ShowType(typ) + ")\n") + "}\n");
    }

    method WriteCall(expr: string, ghost e: Text, ghost t: Type)
      requires IsReceiver(recv) && expr == ShowText(recv, e)
      modifies this`buf
      ensures buf == old(buf) + Show(recv, CallReset(e, t))
    {
      StarsShow(recv, e);
      var target := if expr[0] == '*' then expr[1..] else expr;
      buf := buf + (target + ".Reset()\n");
    }

    method ResetExternal(expr: string, typ: Type, ghost e: Text, ghost t: Type)
      requires IsReceiver(recv) && expr == ShowText(recv, e) && typ.Selector?
      modifies this`buf, this`err
      ensures buf == old(buf) + Show(recv, EmitExternal(env, e, t, typ))
      ensures err == if old(err).Some? then old(err) else ErrorOf(EmitExternal(env, e, t, typ))
    {
      var x := env.external(typ.pkg, typ.name);
      if x.lookup.Failed? {
        Fail(x.lookup.error);
      } else if x.lookup.NotImported? {
        ResetUnknown(expr, typ, e);
      } else if x.reset {
        WriteCall(expr, e, t);
      } else {
        match x.kind
        case IsMap => buf := buf + ("clear(" + expr + ")\n");
        case IsSlice => buf := buf + (expr + " = " + expr + "[:0]\n");
        case _ => buf := buf + (expr + " = *new(" + ShowType(typ) + ")\n");
      }
    }

    method ResetExpr(expr: string, typ: Type, depth: nat, ghost e: Text, ghost t: Type)
      requires IsReceiver(recv) && expr == ShowText(recv, e)
      modifies this`buf, this`err
      ensures buf == old(buf) + Show(recv, Emit(env, e, t, typ, depth))
      ensures err == if old(err).Some? then old(err) else ErrorOf(Emit(env, e, t, typ, depth))
      decreases Unfoldings(depth), typ, 1
    {
      match typ
      case Paren(x) => ResetExpr(expr, x, depth, e, t);
      case Ident(n) =>
        if IsBasic(n) && n !in env.types {
          buf := buf + (expr + " = " + Zero(n) + "\n");
        } else if n == "error" || n == "any" {
          buf := buf + (expr + " = nil\n");
        } else {
          ResetNamed(expr, typ, n, depth, e, t);
        }
      case Index(b, _) => ResetNamed(expr, typ, GenericName(b), depth, e, t);
      case Selector(_, _) => ResetExternal(expr, typ, e, t);
      case Star(x) => ResetPointer(expr, x, depth, e, t);
      case Slice(_) => buf := buf + (expr + " = " + expr + "[:0]\n");
      case Array(_, _) => buf := buf + (expr + " = " + ShowType(typ) + "{}\n");
      case Map(_, _) => buf := buf + ("clear(" + expr + ")\n");
      case Struct(_, _) => buf := buf + (expr + " = " + ShowType(typ) + "{}\n");
      case Interface(_) => buf := buf + (expr + " = nil\n");
      case Other(_) => buf := buf + (expr + " = nil\n");
    }

    method ResetPointer(expr: string, x: Type, depth: nat, ghost e: Text, ghost t: Type)
      requires IsReceiver(recv) && expr == ShowText(recv, e)
      modifies this`buf, this`err
      ensures buf == old(buf) + Show(recv, Emit(env, e, t, Star(x), depth))
      ensures err == if old(err).Some? then old(err) else ErrorOf(Emit(env, e, t, Star(x), depth))
      decreases Unfoldings(depth), x, 3
    {
      StarsShow(recv, e);
      var ptr, p := expr, e;
      if depth > 0 || expr[0] == '*' {
        ptr, p := "(" + expr + ")", Group(e);
      }
      ResetPointee(ptr, x, depth, p);
      assert Emit(env, e, t, Star(x), depth) == IfNotNil(p, Emit(env, Deref(p), x, x, depth + 1));
    }

    method ResetPointee(ptr: string, x: Type, depth: nat, ghost p: Text)
      requires IsReceiver(recv) && ptr == ShowText(recv, p)
      modifies this`buf, this`err
      ensures buf == old(buf) + Show(recv, IfNotNil(p, Emit(env, Deref(p), x, x, depth + 1)))
      ensures err == if old(err).Some? then old(err) else ErrorOf(IfNotNil(p, Emit(env, Deref(p), x, x, depth + 1)))
      decreases Unfoldings(depth), x, 2
    {
      ghost var start, body := buf, Emit(env, Deref(p), x, x, depth + 1);
      buf := buf + ("if " + ptr + " != nil {\n");
      ResetExpr("*" + ptr, x, depth + 1, Deref(p), x);
      buf := buf + "}\n";
      GuardShows(recv, start, p, body);
    }

    method ResetNamed(expr: string, typ: Type, name: string, depth: nat, ghost e: Text, ghost t: Type)
      requires IsReceiver(recv) && expr == ShowText(recv, e)
      modifies this`buf, this`err
      ensures buf == old(buf) + Show(recv, EmitNamed(env, e, t, typ, name, depth))
      ensures err == if old(err).Some? then old(err) else ErrorOf(EmitNamed(env, e, t, typ, name, depth))
      decreases Unfoldings(depth), typ, 0
    {
      if name !in env.types {
        ResetUnknown(expr, typ, e);
        return;
      }
      var d := env.types[name];
      if d.HasMethod() {
        WriteCall(expr, e, t);
      } else if d.alias || d.params != [] {
        ResetUnknown(expr, typ, e);
      } else {
        ResetPlain(expr, typ, name, depth, e, t);
      }
    }

    /** A name defined by its definition alone. */
    method ResetPlain(expr: string, typ: Type, name: string, depth: nat, ghost e: Text, ghost t: Type)
      requires IsReceiver(recv) && expr == ShowText(recv, e) && name in env.types && env.types[name].IsPlain()
      modifies this`buf, this`err
      ensures buf == old(buf) + Show(recv, EmitNamed(env, e, t, typ, name, depth))
      ensures err == if old(err).Some? then old(err) else ErrorOf(EmitNamed(env, e, t, typ, name, depth))
      decreases Unfoldings(depth), typ, 0, 1
    {
      var def := env.types[name].def;
      PlainIsDefined(env, e, t, typ, name, depth);
      if def.Struct? {
        buf := buf + (expr + " = " + ShowType(typ) + "{}\n");
      } else if def.Ident? || def.Array? || def.Slice? || def.Map? || def.Star? {
        ResetUnfolded(expr, typ, name, depth, e, t);
      } else {
        buf := buf + (expr + " = nil\n");
      }
    }

    method ResetUnfolded(expr: string, typ: Type, name: string, depth: nat, ghost e: Text, ghost t: Type)
      requires IsReceiver(recv) && expr == ShowText(recv, e) && name in env.types
      modifies this`buf, this`err
      ensures buf == old(buf) + Show(recv, EmitUnfolded(env, e, t, typ, name, depth))
      ensures err == if old(err).Some? then old(err) else ErrorOf(EmitUnfolded(env, e, t, typ, name, depth))
      decreases Unfoldings(depth), typ, 0, 0
    {
      var def := env.types[name].def;
      if depth > MAX_RESET_DEPTH {
        ResetUnknown(expr, typ, e);
      } else if def.Ident? && IsBasic(def.name) {
        buf := buf + (expr + " = " + name + "(" + Zero(def.name) + ")\n");
      } else {
        ResetExpr(expr, def, depth + 1, e, t);
      }
    }

    /** One more field, after those in done. */
    method ResetField(f: FieldVar, ghost start: string, ghost first: Option<string>, ghost done: seq<FieldVar>)
      requires IsReceiver(recv) && HasWritten(start, first, done)
      modifies this`buf, this`err
      ensures HasWritten(start, first, done + [f])
    {
      OneMoreField(env, recv, start, done, f);
      ResetExpr(recv + "." + f.name, f.typ, 0, Field(f.name), f.typ);
    }

    /** The buffer went on from start with the statements for some fields, the error from first. */
    ghost predicate HasWritten(start: string, first: Option<string>, fields: seq<FieldVar>)
      reads this
    {
      && buf == start + ShowAll(recv, EmitFields(env, fields))
      && err == if first.Some? then first else FirstError(EmitFields(env, fields))
    }

    method ResetUnlessBlank(name: string, typ: Type, ghost start: string, ghost first: Option<string>,
                            ghost done: seq<FieldVar>)
      requires IsReceiver(recv) && HasWritten(start, first, done)
      modifies this`buf, this`err
      ensures HasWritten(start, first, if name == "_" then done else done + [FieldVar(name, typ)])
    {
      if name != "_" {
        ResetField(FieldVar(name, typ), start, first, done);
      }
    }

    method ResetListed(names: seq<string>, typ: Type, ghost start: string, ghost first: Option<string>,
                       ghost done: seq<FieldVar>)
      requires IsReceiver(recv) && HasWritten(start, first, done)
      modifies this`buf, this`err
      ensures HasWritten(start, first, done + ListedFields(names, typ))
    {
      ghost var written := done;
      for i := 0 to |names|
        invariant written == done + ListedFields(names[..i], typ) && HasWritten(start, first, written)
      {
        OneMoreName(names, typ, i, done);
        ResetUnlessBlank(names[i], typ, start, first, written);
        written := if names[i] == "_" then written else written + [FieldVar(names[i], typ)];
      }
      assert names[..|names|] == names;
    }

    method ResetDecl(d: FieldDecl, ghost start: string, ghost first: Option<string>, ghost done: seq<FieldVar>)
      requires IsReceiver(recv) && HasWritten(start, first, done)
      modifies this`buf, this`err
      ensures HasWritten(start, first, done + FieldsOfOne(d))
    {
      match d
      case Embedded(t) =>
        var n := EmbeddedName(t);
        if n != "" {
          ResetField(FieldVar(n, t), start, first, done);
        } else {
          assert done + FieldsOfOne(d) == done;
        }
      case Listed(names, t) => ResetListed(names, t, start, first, done);
    }

    /**
     * The method for the struct type name: its text is the header, the
     * statements for its fields in order, and the end.
     */
    method WriteMethod(name: string, params: seq<string>, decls: seq<FieldDecl>)
      requires name == "" || IsNameChar(name[0])
      modifies this
      ensures recv == ReceiverName(name)
      ensures buf == old(buf) + Header(name, params) + ShowAll(recv, EmitFields(env, FieldsOf(decls))) + "}\n\n"
      ensures err == if old(err).Some? then old(err) else FirstError(EmitFields(env, FieldsOf(decls)))
    {
      recv := ReceiverName(name);
      buf := buf + Header(name, params);
      ghost var start, first := buf, err;
      var i := 0;
      while i < |decls|
        invariant i <= |decls| && HasWritten(start, first, FieldsOf(decls[..i]))
        invariant recv == ReceiverName(name)
      {
        assert decls[..i + 1][..i] == decls[..i];
        assert FieldsOf(decls[..i + 1]) == FieldsOf(decls[..i]) + FieldsOfOne(decls[i]);
        ResetDecl(decls[i], start, first, FieldsOf(decls[..i]));
        i := i + 1;
      }
      assert decls[..i] == decls;
      buf := buf + "}\n\n";
    }
  }

  lemma UnknownShows(recv: string, e: Text, typ: Type)
    ensures Show(recv, EmitUnknown(e, typ))
         == "if resetter, ok := any(" + ShowAddress(recv, e)
            + ").(interface{ Reset() }); ok {\nresetter.Reset()\n} else {\n"
            + (ShowText(recv, e) + " = *new(" + ShowType(typ) + ")\n") + "}\n"
  {
  }

  lemma GuardShows(recv: string, start: string, p: Text, body: Stmt)
    ensures start + ("if " + ShowText(recv, p) + " != nil {\n") + Show(recv, body) + "}\n"
         == start + Show(recv, IfNotNil(p, body))
    ensures ErrorOf(IfNotNil(p, body)) == ErrorOf(body)
  {
  }

  lemma OneMoreName(names: seq<string>, typ: Type, i: nat, done: seq<FieldVar>)
    requires i < |names|
    ensures done + ListedFields(names[..i + 1], typ)
            == if names[i] == "_" then done + ListedFields(names[..i], typ)
               else done + ListedFields(names[..i], typ) + [FieldVar(names[i], typ)]
  {
    assert names[..i + 1][..i] == names[..i];
  }

  lemma OneMoreField(env: Env, recv: string, start: string, fields: seq<FieldVar>, f: FieldVar)
    ensures var s := EmitField(env, f);
            && start + ShowAll(recv, EmitFields(env, fields + [f]))
               == start + ShowAll(recv, EmitFields(env, fields)) + Show(recv, s)
            && (var before := FirstError(EmitFields(env, fields));
                FirstError(EmitFields(env, fields + [f])) == if before.Some? then before else ErrorOf(s))
  {
    var body := EmitFields(env, fields + [f]);
    assert body[..|body| - 1] == EmitFields(env, fields);
  }

  function Joined(params: seq<string>): string {
    if |params| == 0 then ""
    else if |params| == 1 then params[0]
    else Joined(params[..|params| - 1]) + ", " + params[|params| - 1]
  }

  /** Up to and including the check for a nil receiver. */
  function Header(name: string, params: seq<string>): string {
    var recv := ReceiverName(name);
    var typeName := if params == [] then name else name + "[" + Joined(params) + "]";
    "// Reset resets " + name + " to its initial state.\n" + "func (" + recv + " *" + typeName + ") Reset() {\n"
    + "if " + recv + " == nil {\nreturn\n}\n\n"
  }

  // ---------------------------------------------------------------- reading expressions back

  /**
   * An expression at the start of a text, and what follows it: * applies to
   * all that comes after, [:0] only to the operand before.
   */
  function Parse(recv: string, s: string): Option<(Expr, string)>
    decreases |s|, 1
  {
    if s == "" then None
    else if s[0] == '*' then
      match Parse(recv, s[1..])
      case Some((x, rest)) => Some((Load(x), rest))
      case None => None
    else
      match ParseOperand(recv, s)
      case Some((x, rest)) => Some(Suffixed(x, rest))
      case None => None
  }

  function ParseOperand(recv: string, s: string): Option<(Expr, string)>
    requires s != ""
    decreases |s|, 0
  {
    if s[0] == '(' then
      match Parse(recv, s[1..])
      case Some((x, rest)) => if rest != "" && rest[0] == ')' then Some((x, rest[1..])) else None
      case None => None
    else if recv + "." <= s then
      var k := |recv| + 1;
      Some((Variable(NamePart(s[k..])), s[k + |NamePart(s[k..])|..]))
    else None
  }

  function Suffixed(x: Expr, rest: string): (Expr, string)
    decreases |rest|
  {
    if "[:0]" <= rest then Suffixed(Empty(x), rest[4..]) else (x, rest)
  }

  function NamePart(s: string): (n: string)
    ensures n <= s
  {
    if s != "" && IsNameChar(s[0]) then [s[0]] + NamePart(s[1..]) else ""
  }

  predicate IsName(n: string) {
    forall i | 0 <= i < |n| :: IsNameChar(n[i])
  }

  /** Every field the text names has a proper name. */
  predicate NamesFields(e: Text) {
    match e
    case Field(n) => IsName(n)
    case Deref(x) => NamesFields(x)
    case Group(x) => NamesFields(x)
  }

  /** A text that cannot be read on. */
  predicate Ends(rest: string) {
    rest == "" || (!IsNameChar(rest[0]) && rest[0] != '[')
  }

  lemma {:induction false} NamePartOf(n: string, rest: string)
    requires IsName(n) && (rest == "" || !IsNameChar(rest[0]))
    ensures NamePart(n + rest) == n
  {
    if n != "" {
      NamePartOf(n[1..], rest);
      assert (n + rest)[1..] == n[1..] + rest;
    }
  }

  /**
   * The text of an expression reads as that expression, and with [:0] behind
   * it as the slice expression the type checker sees: in *p[:0] the pointer is sliced.
   */
  lemma {:induction false} TextReads(recv: string, e: Text, sliced: bool, rest: string)
    requires IsReceiver(recv) && NamesFields(e) && Ends(rest)
    ensures Parse(recv, ShowText(recv, e) + ((if sliced then "[:0]" else "") + rest))
            == Some((if sliced then ReadEmpty(e) else Read(e), rest))
  {
    match e
    case Deref(x) =>
      TextReads(recv, x, sliced, rest);
      StarReads(recv, x, (if sliced then "[:0]" else "") + rest);
    case Group(x) =>
      var tail := (if sliced then "[:0]" else "") + rest;
      TextReads(recv, x, false, ")" + tail);
      assert "" + (")" + tail) == ")" + tail;
      GroupReads(recv, x, tail);
      TailReads(Read(x), sliced, rest);
    case Field(n) =>
      FieldReads(recv, n, (if sliced then "[:0]" else "") + rest);
      TailReads(Variable(n), sliced, rest);
  }

  lemma StarReads(recv: string, x: Text, tail: string)
    ensures Parse(recv, ShowText(recv, Deref(x)) + tail)
            == match Parse(recv, ShowText(recv, x) + tail) {
                 case Some((y, rest)) => Some((Load(y), rest))
                 case None => None
               }
  {
    assert (ShowText(recv, Deref(x)) + tail)[1..] == ShowText(recv, x) + tail;
  }

  lemma GroupReads(recv: string, x: Text, tail: string)
    requires Parse(recv, ShowText(recv, x) + (")" + tail)) == Some((Read(x), ")" + tail))
    ensures Parse(recv, ShowText(recv, Group(x)) + tail) == Some(Suffixed(Read(x), tail))
  {
    var s := ShowText(recv, Group(x)) + tail;
    assert s[1..] == ShowText(recv, x) + (")" + tail);
    assert ParseOperand(recv, s) == Some((Read(x), (")" + tail)[1..]));
  }

  lemma FieldReads(recv: string, n: string, tail: string)
    requires IsReceiver(recv) && IsName(n) && (tail == "" || !IsNameChar(tail[0]))
    ensures Parse(recv, ShowText(recv, Field(n)) + tail) == Some(Suffixed(Variable(n), tail))
  {
    var s, k := ShowText(recv, Field(n)) + tail, |recv| + 1;
    assert s == (recv + ".") + (n + tail);
    assert s[k..] == n + tail;
    NamePartOf(n, tail);
    assert s[k + |n|..] == tail;
    assert ParseOperand(recv, s) == Some((Variable(n), tail));
  }

  lemma TailReads(x: Expr, sliced: bool, rest: string)
    requires Ends(rest)
    ensures Suffixed(x, (if sliced then "[:0]" else "") + rest) == (if sliced then Empty(x) else x, rest)
  {
    if sliced {
      assert ("[:0]" + rest)[4..] == rest;
      assert Suffixed(Empty(x), rest) == (Empty(x), rest);
    } else {
      assert "" + rest == rest;
    }
  }
}
