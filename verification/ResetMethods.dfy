/** Whole generated methods: when Go accepts them, what running them achieves, and the types they fail on. */
module ResetMethods {
  import opened Wrappers
  import opened ResetTypes
  import opened ResetEmit
  import opened ResetFields
  import opened ResetRun

  function Lower(c: char): char {
    if 'A' <= c <= 'Z' then c - 'A' + 'a' else c
  }

  /** The receiver is named by the first letter of its type. */
  function ReceiverName(name: string): string {
    if name == "" then "r" else [Lower(name[0])]
  }

  /** A struct the generator writes a method for. */
  predicate IsTarget(env: Env, n: string) {
    n in env.types && env.types[n].marked && env.types[n].def.Struct?
  }

  function TargetFields(env: Env, n: string): seq<FieldVar>
    requires IsTarget(env, n)
  {
    FieldsOf(env.types[n].def.fields)
  }

  /** The first field of that name, or past the end. */
  function IndexOf(fields: seq<FieldVar>, name: string): (i: nat)
    ensures i <= |fields| && (i < |fields| ==> fields[i].name == name)
    ensures forall j | 0 <= j < i :: fields[j].name != name
  {
    if fields == [] then 0
    else
      var i := IndexOf(fields[..|fields| - 1], name);
      if i < |fields| - 1 || fields[|fields| - 1].name == name then i else i + 1
  }

  function FieldType(fields: seq<FieldVar>, name: string): Type {
    var i := IndexOf(fields, name);
    if i < |fields| then fields[i].typ else Ident(name)
  }

  function ScopeOf(env: Env, n: string): Scope
    requires IsTarget(env, n)
  {
    Scope(ReceiverName(n), env.types[n].params, (name: string) => FieldType(TargetFields(env, n), name))
  }

  /** Where the fields of a struct at a are. */
  function FrameAt(a: Loc, fields: seq<FieldVar>): Frame {
    (name: string) => FieldLoc(a, IndexOf(fields, name))
  }

  ghost predicate HasDistinctNames(fields: seq<FieldVar>) {
    forall i, j | 0 <= i < j < |fields| :: fields[i].name != fields[j].name
  }

  lemma IndexOfField(fields: seq<FieldVar>, i: nat)
    requires HasDistinctNames(fields) && i < |fields|
    ensures IndexOf(fields, fields[i].name) == i
  {
  }

  /** The package compiles without its generated methods, and no type parameter of a target hides a type it uses. */
  ghost predicate IsPackage(env: Env) {
    && Valid(env)
    && forall n | IsTarget(env, n) ::
         && HasDistinctNames(TargetFields(env, n))
         && (forall i | 0 <= i < |TargetFields(env, n)| :: IsWhole(env, TargetFields(env, n)[i].typ))
         && (forall p | p in env.types[n].params ::
               p !in env.types && p !in env.dotted && !IsPredeclaredType(p))
  }

  // ---------------------------------------------------------------- when Go accepts a method

  /**
   * Go lets the method be declared: not for an alias, nor beside a method of the
   * type, under whichever name it was written, or a field of the same name, nor
   * with a receiver that cannot be referred to or is a type parameter, nor where
   * nil is something else.
   */
  predicate HasRoom(env: Env, n: string)
    requires IsTarget(env, n)
  {
    var d, recv := env.types[n], ReceiverName(n);
    && !d.alias && d.own.NoReset? && recv != "_" && recv !in d.params
    && Usable(env, ScopeOf(env, n), false, "nil")
    && forall i | 0 <= i < |TargetFields(env, n)| :: TargetFields(env, n)[i].name != "Reset"
  }

  ghost predicate IsAccepted(env: Env, n: string)
    requires Valid(env) && IsTarget(env, n)
  {
    var body := EmitFields(env, TargetFields(env, n));
    HasRoom(env, n) && forall i | 0 <= i < |body| :: Accepts(env, ScopeOf(env, n), false, body[i])
  }

  /** Fields of the type can be reset, in a method with this scope. */
  ghost predicate FieldFine(env: Env, scope: Scope, t: Type)
    requires Valid(env)
  {
    Fine(env, scope, t, t, Plainly, 0)
  }

  ghost predicate FieldsFine(env: Env, scope: Scope, fields: seq<FieldVar>)
    requires Valid(env)
  {
    forall i | 0 <= i < |fields| :: FieldFine(env, scope, fields[i].typ)
  }

  /**
   * Go accepts the generated method exactly when it has room for it and every
   * field is of a type it can be reset by.
   */
  lemma MethodAcceptedExactlyWhenFine(env: Env, n: string)
    requires IsPackage(env) && IsTarget(env, n)
    ensures IsAccepted(env, n) <==> HasRoom(env, n) && FieldsFine(env, ScopeOf(env, n), TargetFields(env, n))
  {
    var fields, scope := TargetFields(env, n), ScopeOf(env, n);
    var body := EmitFields(env, fields);
    forall i | 0 <= i < |fields|
      ensures Accepts(env, scope, false, body[i]) <==> FieldFine(env, scope, fields[i].typ)
    {
      FieldAcceptedExactlyWhenFine(env, n, i);
    }
    if forall i | 0 <= i < |body| :: Accepts(env, scope, false, body[i]) {
      forall i | 0 <= i < |fields|
        ensures FieldFine(env, scope, fields[i].typ)
      {
        assert Accepts(env, scope, false, body[i]);
      }
      assert FieldsFine(env, scope, fields);
    }
  }

  lemma FieldAcceptedExactlyWhenFine(env: Env, n: string, i: nat)
    requires IsPackage(env) && IsTarget(env, n) && i < |TargetFields(env, n)|
    ensures Accepts(env, ScopeOf(env, n), false, EmitField(env, TargetFields(env, n)[i]))
            <==> FieldFine(env, ScopeOf(env, n), TargetFields(env, n)[i].typ)
  {
    var f := TargetFields(env, n)[i];
    IndexOfField(TargetFields(env, n), i);
    AcceptedExactlyWhenFine(env, ScopeOf(env, n), Field(f.name), f.typ, f.typ, Plainly, 0);
  }

  // ---------------------------------------------------------------- what running a method achieves

  function ExecAll(w: World, h: Heap, frame: Frame, body: seq<Stmt>): Outcome {
    if body == [] then Returned(h)
    else
      var before := ExecAll(w, h, frame, body[..|body| - 1]);
      if before.Returned? then Exec(w, before.heap, frame, body[|body| - 1]) else before
  }

  /** Calls the method of a struct with these fields on a receiver that may be nil. */
  function CallMethod(env: Env, w: World, h: Heap, receiver: Option<Loc>, fields: seq<FieldVar>): Outcome {
    match receiver
    case None => Returned(h)
    case Some(a) => ExecAll(w, h, FrameAt(a, fields), EmitFields(env, fields))
  }

  /** What a method that resets all of these fields has to achieve, if it returns. */
  ghost predicate Resets(env: Env, h: Heap, frame: Frame, fields: seq<FieldVar>, after: Outcome)
    requires Valid(env)
  {
    && !after.Panicked?
    && (after.Returned? ==>
          && Toward(h, after.heap)
          && forall i | 0 <= i < |fields| :: AllClean(env, after.heap, frame(fields[i].name), fields[i].typ))
  }

  ghost predicate IsFrame(ts: Typing, frame: Frame, fields: seq<FieldVar>) {
    forall i | 0 <= i < |fields| :: (frame(fields[i].name), fields[i].typ) in ts
  }

  ghost predicate AreWhole(env: Env, fields: seq<FieldVar>) {
    forall i | 0 <= i < |fields| :: IsWhole(env, fields[i].typ)
  }

  lemma {:induction false} FieldsClear(env: Env, ts: Typing, w: World, scope: Scope, h: Heap, frame: Frame,
                                       fields: seq<FieldVar>)
    requires Valid(env) && IsSound(env, ts, w) && Fits(env, ts, h) && IsFrame(ts, frame, fields)
    requires FieldsFine(env, scope, fields) && AreWhole(env, fields)
    ensures Resets(env, h, frame, fields, ExecAll(w, h, frame, EmitFields(env, fields)))
  {
    if fields != [] {
      var front, last := fields[..|fields| - 1], fields[|fields| - 1];
      FieldsClear(env, ts, w, scope, h, frame, front);
      var body := EmitFields(env, fields);
      assert body[..|body| - 1] == EmitFields(env, front);
      var before := ExecAll(w, h, frame, EmitFields(env, front));
      if before.Returned? {
        TowardKeepsFit(env, ts, h, before.heap);
        FieldClears(env, ts, w, scope, before.heap, frame, last);
        OneMoreCleared(env, h, before.heap, frame, fields, Exec(w, before.heap, frame, EmitField(env, last)));
      }
    }
  }

  lemma FieldClears(env: Env, ts: Typing, w: World, scope: Scope, h: Heap, frame: Frame, f: FieldVar)
    requires Valid(env) && IsSound(env, ts, w) && Fits(env, ts, h) && (frame(f.name), f.typ) in ts
    requires FieldFine(env, scope, f.typ) && IsWhole(env, f.typ)
    ensures Achieves(env, h, frame(f.name), f.typ, Exec(w, h, frame, EmitField(env, f)))
  {
    RunClears(env, ts, w, scope, h, frame, Field(f.name), frame(f.name), f.typ, f.typ, Plainly, 0);
  }

  /** Cleaning the last field leaves the others clean. */
  lemma OneMoreCleared(env: Env, h: Heap, before: Heap, frame: Frame, fields: seq<FieldVar>, after: Outcome)
    requires Valid(env) && fields != [] && Resets(env, h, frame, fields[..|fields| - 1], Returned(before))
    requires Achieves(env, before, frame(fields[|fields| - 1].name), fields[|fields| - 1].typ, after)
    ensures Resets(env, h, frame, fields, after)
  {
    if after.Returned? {
      TowardIsTransitive(h, before, after.heap);
      var front := fields[..|fields| - 1];
      forall i | 0 <= i < |front|
        ensures AllClean(env, after.heap, frame(fields[i].name), fields[i].typ)
      {
        assert AllClean(env, before, frame(front[i].name), front[i].typ);
        StillAllClean(env, before, after.heap, frame(front[i].name), front[i].typ);
      }
    }
  }

  lemma StillAllClean(env: Env, h: Heap, h': Heap, a: Loc, t: Type)
    requires Valid(env) && Toward(h, h') && AllClean(env, h, a, t)
    ensures AllClean(env, h', a, t)
  {
    forall n: nat
      ensures Clean(env, h', a, t, n)
    {
      TowardKeepsClean(env, h, h', a, t, n);
    }
  }

  /** A struct is clean when its fields are. */
  lemma FieldsCleanIsClean(env: Env, h: Heap, a: Loc, t: Type)
    requires Valid(env) && Generated(env, t).Some? && HasDistinctNames(Generated(env, t).value)
    requires var fields := Generated(env, t).value;
             forall i | 0 <= i < |fields| :: AllClean(env, h, FrameAt(a, fields)(fields[i].name), fields[i].typ)
    ensures AllClean(env, h, a, t)
  {
    var fields := Generated(env, t).value;
    forall n: nat | 0 < n
      ensures Clean(env, h, a, t, n)
    {
      forall i | 0 <= i < |fields|
        ensures Clean(env, h, FieldLoc(a, i), fields[i].typ, n - 1)
      {
        IndexOfField(fields, i);
        assert AllClean(env, h, FrameAt(a, fields)(fields[i].name), fields[i].typ);
      }
    }
  }

  /** Every field that a declaration of the struct gives it is clean. */
  ghost predicate DeclaredClean(env: Env, h: Heap, a: Loc, n: string)
    requires Valid(env) && IsTarget(env, n)
  {
    AreWritten(env.types[n].def.fields) ==>
      forall p, f | DeclaresAt(env.types[n].def.fields, p, f) ::
        AllClean(env, h, FrameAt(a, TargetFields(env, n))(f.name), f.typ)
  }

  lemma ListedCleanIsDeclaredClean(env: Env, h: Heap, a: Loc, n: string)
    requires Valid(env) && IsTarget(env, n)
    requires var fields := TargetFields(env, n);
             forall i | 0 <= i < |fields| :: AllClean(env, h, FrameAt(a, fields)(fields[i].name), fields[i].typ)
    ensures DeclaredClean(env, h, a, n)
  {
    var decls, fields := env.types[n].def.fields, TargetFields(env, n);
    if AreWritten(decls) {
      forall p, f | DeclaresAt(decls, p, f)
        ensures AllClean(env, h, FrameAt(a, fields)(f.name), f.typ)
      {
        ListedExactlyWhenDeclared(decls, f);
        var i :| 0 <= i < |fields| && fields[i] == f;
        assert AllClean(env, h, FrameAt(a, fields)(fields[i].name), fields[i].typ);
      }
    }
  }

  lemma FieldOfClean(env: Env, h: Heap, a: Loc, t: Type, fields: seq<FieldVar>, i: nat)
    requires Valid(env) && Generated(env, t) == Some(fields) && i < |fields| && AllClean(env, h, a, t)
    ensures AllClean(env, h, FieldLoc(a, i), fields[i].typ)
  {
    forall m: nat
      ensures Clean(env, h, FieldLoc(a, i), fields[i].typ, m)
    {
      assert Clean(env, h, a, t, m + 1);
      assert FieldsClean(env, h, a, fields, m);
    }
  }

  /** A clean receiver is clean with every field that is declared. */
  lemma CleanIsDeclaredClean(env: Env, h: Heap, a: Loc, t: Type, n: string)
    requires Valid(env) && IsTarget(env, n) && Generated(env, t) == Some(TargetFields(env, n))
    requires HasDistinctNames(TargetFields(env, n)) && AllClean(env, h, a, t)
    ensures DeclaredClean(env, h, a, n)
  {
    var fields := TargetFields(env, n);
    forall i | 0 <= i < |fields|
      ensures AllClean(env, h, FrameAt(a, fields)(fields[i].name), fields[i].typ)
    {
      IndexOfField(fields, i);
      FieldOfClean(env, h, a, t, fields, i);
    }
    ListedCleanIsDeclaredClean(env, h, a, n);
  }

  /** t names the target n, which is not an alias. */
  ghost predicate IsTypeOf(env: Env, t: Type, n: string) {
    && IsTarget(env, n) && !env.types[n].alias
    && (Strip(t) == Ident(n) || (Strip(t).Index? && GenericName(Strip(t).base) == n))
  }

  lemma ListedCleanIsClean(env: Env, h: Heap, a: Loc, t: Type, n: string)
    requires Valid(env) && IsTypeOf(env, t, n) && HasDistinctNames(TargetFields(env, n))
    requires var fields := TargetFields(env, n);
             forall i | 0 <= i < |fields| :: AllClean(env, h, FrameAt(a, fields)(fields[i].name), fields[i].typ)
    ensures AllClean(env, h, a, t) && DeclaredClean(env, h, a, n)
  {
    FieldsCleanIsClean(env, h, a, t);
    ListedCleanIsDeclaredClean(env, h, a, n);
  }

  /**
   * A generated method that Go accepts does what it is for, on every heap its
   * types fit, however pointers alias: it does not panic, and if it returns it
   * has left its receiver clean to every depth, and cleared or left alone
   * everything else; the receiver is clean with each of the fields its struct
   * declares. On nil it does nothing. Asked of the Reset methods it
   * calls is only that they are sound.
   */
  lemma AcceptedMethodsClear(env: Env, ts: Typing, w: World, h: Heap, receiver: Option<Loc>, t: Type, n: string)
    requires IsPackage(env) && IsTypeOf(env, t, n) && IsAccepted(env, n)
    requires IsSound(env, ts, w) && Fits(env, ts, h)
    requires receiver.Some? ==> (receiver.value, t) in ts
    ensures var after := CallMethod(env, w, h, receiver, TargetFields(env, n));
            && !after.Panicked?
            && (after.Returned? ==>
                  && Toward(h, after.heap) && Fits(env, ts, after.heap)
                  && if receiver.None? then after.heap == h
                     else
                       && AllClean(env, after.heap, receiver.value, t)
                       && DeclaredClean(env, after.heap, receiver.value, n))
  {
    if receiver.Some? {
      ReceiverIsCleared(env, ts, w, h, receiver.value, t, n);
    }
    var after := CallMethod(env, w, h, receiver, TargetFields(env, n));
    if after.Returned? {
      TowardKeepsFit(env, ts, h, after.heap);
    }
  }

  lemma ReceiverIsCleared(env: Env, ts: Typing, w: World, h: Heap, a: Loc, t: Type, n: string)
    requires IsPackage(env) && IsTypeOf(env, t, n) && IsAccepted(env, n)
    requires IsSound(env, ts, w) && Fits(env, ts, h) && (a, t) in ts
    ensures var after := CallMethod(env, w, h, Some(a), TargetFields(env, n));
            && !after.Panicked?
            && (after.Returned? ==>
                  Toward(h, after.heap) && AllClean(env, after.heap, a, t) && DeclaredClean(env, after.heap, a, n))
  {
    MethodAcceptedExactlyWhenFine(env, n);
    var fields := TargetFields(env, n);
    FrameIsTyped(ts, a, fields);
    FieldsClear(env, ts, w, ScopeOf(env, n), h, FrameAt(a, fields), fields);
    var after := CallMethod(env, w, h, Some(a), fields);
    if after.Returned? {
      ListedCleanIsClean(env, after.heap, a, t, n);
    }
  }

  lemma FrameIsTyped(ts: Typing, a: Loc, fields: seq<FieldVar>)
    requires HasDistinctNames(fields) && HasFields(ts, a, fields)
    ensures IsFrame(ts, FrameAt(a, fields), fields)
  {
    forall i | 0 <= i < |fields|
      ensures (FrameAt(a, fields)(fields[i].name), fields[i].typ) in ts
    {
      IndexOfField(fields, i);
    }
  }
}
