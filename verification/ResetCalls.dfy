/**
 * Generated methods calling each other: each does what the others count on,
 * and a call returns when the calls it leads to are finitely deep.
 */
module ResetCalls {
  import opened Wrappers
  import opened ResetTypes
  import opened ResetEmit
  import opened ResetRun
  import opened ResetMethods

  /** A call of Reset: a generated method is run in w, any other is as given. */
  ghost function Called(env: Env, others: World, w: World, h: Heap, a: Loc, t: Type): Outcome {
    match Generated(env, t)
    case None => others.reset(h, a, t)
    case Some(fields) => CallMethod(env, w, h, Some(a), fields)
  }

  /** The world one call above w. */
  ghost function Above(env: Env, others: World, w: World): World {
    World((h: Heap, a: Loc, t: Type) => Called(env, others, w, h, a, t), others.dynamic)
  }

  /** The world in which no generated method gets to return. */
  ghost function Ground(env: Env, others: World): World {
    World((h: Heap, a: Loc, t: Type) => if Generated(env, t).None? then others.reset(h, a, t) else Unfinished,
          others.dynamic)
  }

  /** The program, its generated methods run up to n calls deep. */
  ghost function Running(env: Env, others: World, n: nat): World {
    if n == 0 then Ground(env, others) else Above(env, others, Running(env, others, n - 1))
  }

  ghost function RunTo(env: Env, others: World, h: Heap, a: Loc, t: Type, n: nat): Outcome {
    Running(env, others, n).reset(h, a, t)
  }

  lemma RunIsCall(env: Env, others: World, h: Heap, a: Loc, t: Type, fields: seq<FieldVar>, n: nat)
    requires Generated(env, t) == Some(fields)
    ensures RunTo(env, others, h, a, t, n)
         == if n == 0 then Unfinished else CallMethod(env, Running(env, others, n - 1), h, Some(a), fields)
  {
  }

  /** The methods that are not generated are sound. */
  ghost predicate OthersAreSound(env: Env, ts: Typing, w: World)
    requires Valid(env)
  {
    && (forall h, a, t | Fits(env, ts, h) && (a, t) in ts && Generated(env, t).None? ::
          IsSoundCall(env, h, a, t, w.reset(h, a, t)))
    && FindsTypes(ts, w)
  }

  ghost predicate OthersReturn(env: Env, ts: Typing, w: World)
    requires Valid(env)
  {
    forall h, a, t | Fits(env, ts, h) && (a, t) in ts && Generated(env, t).None? :: w.reset(h, a, t).Returned?
  }

  /** Go accepts every method generated for the package. */
  ghost predicate AllAccepted(env: Env)
    requires IsPackage(env)
  {
    forall n | IsTarget(env, n) :: IsAccepted(env, n)
  }

  /** A program: the package, its variables, and the methods it does not generate. */
  ghost predicate IsProgram(env: Env, ts: Typing, others: World) {
    IsPackage(env) && AllAccepted(env) && OthersAreSound(env, ts, others)
  }

  function TargetOf(t: Type): string {
    if Strip(t).Ident? then Strip(t).name else if Strip(t).Index? then GenericName(Strip(t).base) else ""
  }

  /** Exactly the structs that are marked get a method, whether named, instantiated or in parentheses. */
  lemma GeneratedExactlyWhenTarget(env: Env, t: Type)
    requires IsPackage(env)
    ensures Generated(env, t).Some? <==> exists n :: IsTypeOf(env, t, n) && n != ""
  {
    if n :| IsTypeOf(env, t, n) && n != "" {
      assert TargetOf(t) == n;
    }
    if Generated(env, t).Some? {
      GeneratedIsTarget(env, t);
      assert TargetOf(t) in env.declared;
      assert IsTypeOf(env, t, TargetOf(t));
    }
  }

  lemma GeneratedIsTarget(env: Env, t: Type)
    requires IsPackage(env) && Generated(env, t).Some?
    ensures IsTypeOf(env, t, TargetOf(t)) && Generated(env, t).value == TargetFields(env, TargetOf(t))
    ensures HasDistinctNames(Generated(env, t).value) && AreWhole(env, Generated(env, t).value)
  {
  }

  lemma ProgramFieldsFine(env: Env, t: Type)
    requires IsPackage(env) && AllAccepted(env) && Generated(env, t).Some?
    ensures IsTarget(env, TargetOf(t)) && FieldsFine(env, ScopeOf(env, TargetOf(t)), Generated(env, t).value)
  {
    GeneratedIsTarget(env, t);
    assert IsAccepted(env, TargetOf(t));
    MethodAcceptedExactlyWhenFine(env, TargetOf(t));
  }

  lemma GeneratedIsSound(env: Env, ts: Typing, w: World, h: Heap, a: Loc, t: Type)
    requires IsPackage(env) && AllAccepted(env) && IsSound(env, ts, w) && Fits(env, ts, h) && (a, t) in ts
    requires Generated(env, t).Some?
    ensures IsSoundCall(env, h, a, t, CallMethod(env, w, h, Some(a), Generated(env, t).value))
  {
    GeneratedIsTarget(env, t);
    assert IsAccepted(env, TargetOf(t));
    AcceptedMethodsClear(env, ts, w, h, Some(a), t, TargetOf(t));
  }

  lemma AboveIsSound(env: Env, ts: Typing, others: World, w: World)
    requires IsProgram(env, ts, others) && IsSound(env, ts, w)
    ensures IsSound(env, ts, Above(env, others, w))
  {
    forall h, a, t | Fits(env, ts, h) && (a, t) in ts
      ensures IsSoundCall(env, h, a, t, Called(env, others, w, h, a, t))
    {
      if Generated(env, t).Some? {
        GeneratedIsSound(env, ts, w, h, a, t);
      }
    }
  }

  lemma GroundIsSound(env: Env, ts: Typing, others: World)
    requires IsProgram(env, ts, others)
    ensures IsSound(env, ts, Ground(env, others))
  {
  }

  /** Whatever depth the methods are run to, each is what the others count on. */
  lemma {:induction false} RunningIsSound(env: Env, ts: Typing, others: World, n: nat) returns (w: World)
    requires IsProgram(env, ts, others)
    ensures w == Running(env, others, n) && IsSound(env, ts, w)
  {
    if n == 0 {
      w := Ground(env, others);
      GroundIsSound(env, ts, others);
    } else {
      var v := RunningIsSound(env, ts, others, n - 1);
      AboveIsSound(env, ts, others, v);
      w := Above(env, others, v);
    }
  }

  /**
   * The methods generated for a package that Go accepts, calling each other
   * as deep as it takes: on every heap the types fit no call panics, and one
   * that returns leaves its receiver clean to every depth, cleared or left
   * alone everything else, and handed to a Reset method in this call whatever
   * it is not responsible for itself.
   */
  lemma ProgramsClear(env: Env, ts: Typing, others: World, n: nat, h: Heap, a: Loc, t: Type)
    requires IsProgram(env, ts, others) && Fits(env, ts, h) && h.reset == {} && (a, t) in ts && Generated(env, t).Some?
    ensures var after := RunTo(env, others, h, a, t, n);
            && !after.Panicked?
            && (after.Returned? ==>
                  && Toward(h, after.heap) && Fits(env, ts, after.heap) && AllClean(env, after.heap, a, t)
                  && IsTarget(env, TargetOf(t)) && DeclaredClean(env, after.heap, a, TargetOf(t)))
  {
    var w := RunningIsSound(env, ts, others, n);
    var after := RunTo(env, others, h, a, t, n);
    assert IsSoundCall(env, h, a, t, after);
    if after.Returned? {
      TowardKeepsFit(env, ts, h, after.heap);
      GeneratedIsTarget(env, t);
      CleanIsDeclaredClean(env, after.heap, a, t, TargetOf(t));
    }
  }

  // ---------------------------------------------------------------- the calls a statement makes

  /** The variable a statement calls Reset for in a heap, and the type it is called on. */
  function Callee(w: World, h: Heap, frame: Frame, s: Stmt): Option<(Loc, Type)> {
    match s
    case IfNotNil(p, body) =>
      (match At(h, frame, Read(p))
       case Some(a) =>
         if a in h.leaves && h.leaves[a].Pointer? && h.leaves[a].to.Some? then Callee(w, h, frame, body) else None
       case None => None)
    case IfResetter(e, otherwise) =>
      (match At(h, frame, Read(e))
       case Some(a) =>
         if w.dynamic(a).Some? then Some((a, Strip(w.dynamic(a).value))) else Callee(w, h, frame, otherwise)
       case None => None)
    case CallReset(e, t) =>
      (match At(h, frame, Read(e))
       case Some(a) => Some((a, Strip(t)))
       case None => None)
    case _ => None
  }

  /** A statement is held up by the call it makes and by nothing else. */
  lemma {:induction false} UnfinishedExactlyWhen(w: World, h: Heap, frame: Frame, s: Stmt)
    ensures var c := Callee(w, h, frame, s);
            && (c.Some? ==> Exec(w, h, frame, s) == CallOf(w, h, c.value.0, c.value.1))
            && (c.None? ==> !Exec(w, h, frame, s).Unfinished?)
    decreases s
  {
    match s
    case IfNotNil(p, body) => UnfinishedExactlyWhen(w, h, frame, body);
    case IfResetter(e, otherwise) =>
      UnfinishedExactlyWhen(w, h, frame, otherwise);
      var at := At(h, frame, Read(e));
      if at.Some? && w.dynamic(at.value).Some? {
        StripTwice(w.dynamic(at.value).value);
      }
    case CallReset(e, t) => StripTwice(t);
    case _ =>
  }

  /** Without a call it does not matter what calls come to. */
  lemma {:induction false} QuietExecIsTheSame(w: World, v: World, h: Heap, frame: Frame, s: Stmt)
    requires w.dynamic == v.dynamic && Callee(w, h, frame, s).None?
    ensures Callee(v, h, frame, s).None? && Exec(w, h, frame, s) == Exec(v, h, frame, s)
    decreases s
  {
    match s
    case IfNotNil(p, body) =>
      var at := At(h, frame, Read(p));
      if at.Some? && at.value in h.leaves && h.leaves[at.value].Pointer? && h.leaves[at.value].to.Some? {
        QuietExecIsTheSame(w, v, h, frame, body);
      }
    case IfResetter(e, otherwise) =>
      var at := At(h, frame, Read(e));
      if at.Some? && w.dynamic(at.value).None? {
        QuietExecIsTheSame(w, v, h, frame, otherwise);
      }
    case _ =>
  }

  lemma {:induction false} SameDynamicSameCallee(w: World, v: World, h: Heap, frame: Frame, s: Stmt)
    requires w.dynamic == v.dynamic
    ensures Callee(w, h, frame, s) == Callee(v, h, frame, s)
    decreases s
  {
    match s
    case IfNotNil(p, body) => SameDynamicSameCallee(w, v, h, frame, body);
    case IfResetter(e, otherwise) => SameDynamicSameCallee(w, v, h, frame, otherwise);
    case _ =>
  }

  // ---------------------------------------------------------------- finitely deep calls return

  /** As the heap stands, some statement of the method of a, if it is generated, calls Reset for c. */
  ghost predicate Leads(env: Env, w: World, h: Heap, a: Loc, t: Type, c: (Loc, Type)) {
    && Generated(env, t).Some?
    && var fields := Generated(env, t).value;
    && exists i :: 0 <= i < |fields| && CallOfField(env, w, h, a, fields, i) == Some(c)
  }

  /** The calls the method of a leads to, as the heap stands, are less than n deep. */
  ghost predicate EndsWithin(env: Env, w: World, h: Heap, a: Loc, t: Type, n: nat)
    decreases n
  {
    Generated(env, t).Some? ==>
      n > 0 && forall c | Leads(env, w, h, a, t, c) :: EndsWithin(env, w, h, c.0, c.1, n - 1)
  }

  function CallOfField(env: Env, w: World, h: Heap, a: Loc, fields: seq<FieldVar>, i: nat): Option<(Loc, Type)>
    requires i < |fields|
  {
    Callee(w, h, FrameAt(a, fields), EmitField(env, fields[i]))
  }

  lemma {:induction false} AtStays(h: Heap, h': Heap, frame: Frame, x: Expr)
    requires Toward(h, h') && At(h', frame, x).Some?
    ensures At(h, frame, x) == At(h', frame, x)
  {
    if x.Load? {
      AtStays(h, h', frame, x.of);
      var a := At(h, frame, x.of).value;
      assert LeafToward(h.leaves[a], h'.leaves[a]);
    }
  }

  /** Clearing makes no new calls. */
  lemma {:induction false} CalleeStays(w: World, h: Heap, h': Heap, frame: Frame, s: Stmt)
    requires Toward(h, h') && Callee(w, h', frame, s).Some?
    ensures Callee(w, h, frame, s) == Callee(w, h', frame, s)
    decreases s
  {
    match s
    case IfNotNil(p, body) =>
      AtStays(h, h', frame, Read(p));
      var a := At(h', frame, Read(p)).value;
      assert LeafToward(h.leaves[a], h'.leaves[a]);
      CalleeStays(w, h, h', frame, body);
    case IfResetter(e, otherwise) =>
      AtStays(h, h', frame, Read(e));
      if w.dynamic(At(h', frame, Read(e)).value).None? {
        CalleeStays(w, h, h', frame, otherwise);
      }
    case CallReset(e, _) => AtStays(h, h', frame, Read(e));
  }

  lemma LeadsStays(env: Env, w: World, h: Heap, h': Heap, a: Loc, t: Type, c: (Loc, Type))
    requires Toward(h, h') && Leads(env, w, h', a, t, c)
    ensures Leads(env, w, h, a, t, c)
  {
    var fields := Generated(env, t).value;
    var i :| 0 <= i < |fields| && CallOfField(env, w, h', a, fields, i) == Some(c);
    CalleeStays(w, h, h', FrameAt(a, fields), EmitField(env, fields[i]));
    assert CallOfField(env, w, h, a, fields, i) == Some(c);
  }

  lemma CallsEnd(env: Env, w: World, h: Heap, a: Loc, t: Type, c: (Loc, Type), n: nat)
    requires EndsWithin(env, w, h, a, t, n) && Leads(env, w, h, a, t, c)
    ensures n > 0 && EndsWithin(env, w, h, c.0, c.1, n - 1)
  {
  }

  lemma EndsByCalls(env: Env, w: World, h: Heap, a: Loc, t: Type, n: nat)
    requires n > 0 && forall c | Leads(env, w, h, a, t, c) :: EndsWithin(env, w, h, c.0, c.1, n - 1)
    ensures EndsWithin(env, w, h, a, t, n)
  {
  }

  lemma {:induction false} StillEndsWithin(env: Env, w: World, h: Heap, h': Heap, a: Loc, t: Type, n: nat)
    requires Toward(h, h') && EndsWithin(env, w, h, a, t, n)
    ensures EndsWithin(env, w, h', a, t, n)
    decreases n, 1
  {
    if n > 0 {
      forall c | Leads(env, w, h', a, t, c)
        ensures EndsWithin(env, w, h', c.0, c.1, n - 1)
      {
        CallStillEnds(env, w, h, h', a, t, c, n);
      }
      EndsByCalls(env, w, h', a, t, n);
    }
  }

  lemma {:induction false} CallStillEnds(env: Env, w: World, h: Heap, h': Heap, a: Loc, t: Type, c: (Loc, Type), n: nat)
    requires Toward(h, h') && EndsWithin(env, w, h, a, t, n) && Leads(env, w, h', a, t, c)
    ensures n > 0 && EndsWithin(env, w, h', c.0, c.1, n - 1)
    decreases n, 0
  {
    LeadsStays(env, w, h, h', a, t, c);
    CallsEnd(env, w, h, a, t, c, n);
    StillEndsWithin(env, w, h, h', c.0, c.1, n - 1);
  }

  // ---------------------------------------------------------------- the variables called for are typed

  /** What a statement calls Reset for is a variable of the type it is called on. */
  lemma {:induction false} CalleeIsTyped(env: Env, ts: Typing, w: World, h: Heap, frame: Frame, e: Text,
                                         a: Loc, t: Type, typ: Type, start: Start, depth: nat)
    requires Valid(env) && Meets(env, ts, w, h, frame, e, a, t, typ, start)
    ensures var c := Callee(w, h, frame, Emit(env, e, t, typ, depth)); c.Some? ==> c.value in ts
    decreases Unfoldings(depth), typ, 1
  {
    match typ
    case Paren(x) => CalleeIsTyped(env, ts, w, h, frame, e, a, t, x, start, depth);
    case Ident(n) =>
      if IsPredeclaredType(n) {
        LiteralsCallNothing(env, w, h, frame, e, t, typ, depth);
      } else {
        NamedCalleeIsTyped(env, ts, w, h, frame, e, a, t, typ, n, start, depth);
      }
    case Index(b, _) => NamedCalleeIsTyped(env, ts, w, h, frame, e, a, t, typ, GenericName(b), start, depth);
    case Selector(_, _) => ExternalCalleeIsTyped(env, ts, w, h, frame, e, a, t, typ, start);
    case Star(x) => PointerCalleeIsTyped(env, ts, w, h, frame, e, a, t, x, start, depth);
    case _ => LiteralsCallNothing(env, w, h, frame, e, t, typ, depth);
  }

  lemma LiteralsCallNothing(env: Env, w: World, h: Heap, frame: Frame, e: Text, t: Type, typ: Type, depth: nat)
    requires Valid(env) && !typ.Paren? && !typ.Index? && !typ.Selector? && !typ.Star?
    requires typ.Ident? ==> IsPredeclaredType(typ.name)
    ensures Callee(w, h, frame, Emit(env, e, t, typ, depth)).None?
  {
    if typ.Ident? {
      assert typ.name !in env.types;
    }
  }

  lemma ExternalCalleeIsTyped(env: Env, ts: Typing, w: World, h: Heap, frame: Frame, e: Text, a: Loc, t: Type,
                              typ: Type, start: Start)
    requires Valid(env) && Meets(env, ts, w, h, frame, e, a, t, typ, start) && typ.Selector?
    ensures var c := Callee(w, h, frame, EmitExternal(env, e, t, typ)); c.Some? ==> c.value in ts
  {
    UnknownCalleeIsTyped(env, ts, w, h, frame, e, typ);
    OwnCalleeIsTyped(env, ts, w, h, frame, e, a, t);
  }

  lemma OwnCalleeIsTyped(env: Env, ts: Typing, w: World, h: Heap, frame: Frame, e: Text, a: Loc, t: Type)
    requires IsLaidOut(env, ts) && (a, t) in ts && At(h, frame, Read(e)) == Some(a)
    ensures Callee(w, h, frame, CallReset(e, t)) == Some((a, Strip(t))) && (a, Strip(t)) in ts
  {
    assert (a, Strip(t)) in ts;
  }

  lemma {:induction false} PointerCalleeIsTyped(env: Env, ts: Typing, w: World, h: Heap, frame: Frame,
                                                e: Text, a: Loc, t: Type, x: Type, start: Start, depth: nat)
    requires Valid(env) && Meets(env, ts, w, h, frame, e, a, t, Star(x), start)
    ensures var c := Callee(w, h, frame, Emit(env, e, t, Star(x), depth)); c.Some? ==> c.value in ts
    decreases Unfoldings(depth), x, 2
  {
    var p := if depth > 0 || e.Deref? then Group(e) else e;
    MeetsPointee(env, ts, w, h, frame, e, p, a, t, x, start);
    var body := Emit(env, Deref(p), x, x, depth + 1);
    GuardCallee(w, h, frame, p, body, a);
    var to := h.leaves[a].to;
    if to.Some? {
      CalleeIsTyped(env, ts, w, h, frame, Deref(p), to.value, x, x, StartAt(t, Star(x)), depth + 1);
    }
  }

  lemma GuardCallee(w: World, h: Heap, frame: Frame, p: Text, body: Stmt, a: Loc)
    requires At(h, frame, Read(p)) == Some(a) && a in h.leaves && h.leaves[a].Pointer?
    ensures Callee(w, h, frame, IfNotNil(p, body)) == if h.leaves[a].to.None? then None else Callee(w, h, frame, body)
    ensures At(h, frame, Read(Deref(p))) == h.leaves[a].to
  {
  }

  lemma {:induction false} NamedCalleeIsTyped(env: Env, ts: Typing, w: World, h: Heap, frame: Frame, e: Text, a: Loc,
                                              t: Type, typ: Type, name: string, start: Start, depth: nat)
    requires Valid(env) && Meets(env, ts, w, h, frame, e, a, t, typ, start)
    requires typ == Ident(name) || (typ.Index? && GenericName(typ.base) == name)
    ensures var c := Callee(w, h, frame, EmitNamed(env, e, t, typ, name, depth)); c.Some? ==> c.value in ts
    decreases Unfoldings(depth), typ, 0
  {
    UnknownCalleeIsTyped(env, ts, w, h, frame, e, typ);
    if name in env.types {
      var d := env.types[name];
      if d.HasMethod() {
        OwnCalleeIsTyped(env, ts, w, h, frame, e, a, t);
      } else if d.IsPlain() && IsUnfolded(d.def) {
        UnfoldedCalleeIsTyped(env, ts, w, h, frame, e, a, t, name, start, depth);
      }
    }
  }

  lemma {:induction false} UnfoldedCalleeIsTyped(env: Env, ts: Typing, w: World, h: Heap, frame: Frame, e: Text,
                                                 a: Loc, t: Type, name: string, start: Start, depth: nat)
    requires Valid(env) && Meets(env, ts, w, h, frame, e, a, t, Ident(name), start) && IsUnfoldedName(env, name)
    ensures var c := Callee(w, h, frame, EmitNamed(env, e, t, Ident(name), name, depth)); c.Some? ==> c.value in ts
    decreases Unfoldings(depth), Ident(name), 0, 1
  {
    if IsFollowed(env, name, depth) {
      FollowedIsDefined(env, e, t, Ident(name), name, depth);
      FollowedCalleeIsTyped(env, ts, w, h, frame, e, a, t, name, start, depth);
    } else {
      PlainIsDefined(env, e, t, Ident(name), name, depth);
      FoldedCalleeIsTyped(env, ts, w, h, frame, e, t, name, depth);
    }
  }

  lemma {:induction false} FollowedCalleeIsTyped(env: Env, ts: Typing, w: World, h: Heap, frame: Frame, e: Text,
                                                 a: Loc, t: Type, name: string, start: Start, depth: nat)
    requires Valid(env) && Meets(env, ts, w, h, frame, e, a, t, Ident(name), start) && IsFollowed(env, name, depth)
    ensures var c := Callee(w, h, frame, Emit(env, e, t, env.types[name].def, depth + 1)); c.Some? ==> c.value in ts
    decreases Unfoldings(depth), Ident(name), 0, 0
  {
    MeetsDefinition(env, ts, w, h, frame, e, a, t, name, start);
    CalleeIsTyped(env, ts, w, h, frame, e, a, t, env.types[name].def, start, depth + 1);
  }

  lemma FoldedCalleeIsTyped(env: Env, ts: Typing, w: World, h: Heap, frame: Frame, e: Text, t: Type, name: string,
                            depth: nat)
    requires IsLaidOut(env, ts) && FindsTypes(ts, w) && IsUnfoldedName(env, name)
    requires depth > MAX_RESET_DEPTH || (env.types[name].def.Ident? && IsBasic(env.types[name].def.name))
    ensures var c := Callee(w, h, frame, EmitUnfolded(env, e, t, Ident(name), name, depth)); c.Some? ==> c.value in ts
  {
    UnknownCalleeIsTyped(env, ts, w, h, frame, e, Ident(name));
  }

  lemma UnknownCalleeIsTyped(env: Env, ts: Typing, w: World, h: Heap, frame: Frame, e: Text, typ: Type)
    requires IsLaidOut(env, ts) && FindsTypes(ts, w)
    ensures var c := Callee(w, h, frame, EmitUnknown(e, typ)); c.Some? ==> c.value in ts
  {
  }

  lemma FieldCalleeIsTyped(env: Env, ts: Typing, w: World, h: Heap, a: Loc, t: Type, i: nat)
    requires IsPackage(env) && AllAccepted(env) && IsSound(env, ts, w) && Fits(env, ts, h) && (a, t) in ts
    requires Generated(env, t).Some? && i < |Generated(env, t).value|
    ensures var c := CallOfField(env, w, h, a, Generated(env, t).value, i); c.Some? ==> c.value in ts
  {
    var fields := Generated(env, t).value;
    var f, frame := fields[i], FrameAt(a, fields);
    GeneratedIsTarget(env, t);
    IndexOfField(fields, i);
    CalleeIsTyped(env, ts, w, h, frame, Field(f.name), frame(f.name), f.typ, f.typ, Plainly, 0);
  }

  // ---------------------------------------------------------------- finitely deep calls return

  /** In the world w, calls less than n deep return. */
  ghost predicate Answers(env: Env, ts: Typing, others: World, w: World, n: nat)
    requires Valid(env)
  {
    && w.dynamic == others.dynamic
    && forall h, a, t | Fits(env, ts, h) && (a, t) in ts && EndsWithin(env, others, h, a, t, n) ::
         w.reset(h, a, t).Returned?
  }

  lemma ProgramFieldAchieves(env: Env, ts: Typing, w: World, h: Heap, a: Loc, t: Type, fields: seq<FieldVar>, i: nat)
    requires IsPackage(env) && AllAccepted(env) && IsSound(env, ts, w) && Fits(env, ts, h) && (a, t) in ts
    requires Generated(env, t) == Some(fields) && i < |fields|
    ensures Achieves(env, h, FrameAt(a, fields)(fields[i].name), fields[i].typ,
                     Exec(w, h, FrameAt(a, fields), EmitField(env, fields[i])))
  {
    GeneratedIsTarget(env, t);
    ProgramFieldsFine(env, t);
    IndexOfField(fields, i);
    FieldClears(env, ts, w, ScopeOf(env, TargetOf(t)), h, FrameAt(a, fields), fields[i]);
  }

  lemma CalleeReturns(env: Env, ts: Typing, others: World, w: World, h: Heap, c: (Loc, Type), n: nat)
    requires Valid(env) && Fits(env, ts, h) && c in ts && Strip(c.1) == c.1
    requires Answers(env, ts, others, w, n) && EndsWithin(env, others, h, c.0, c.1, n)
    ensures CallOf(w, h, c.0, c.1).Returned?
  {
    assert (c.0, c.1) in ts;
  }

  lemma {:induction false} CalleeIsStripped(w: World, h: Heap, frame: Frame, s: Stmt)
    ensures var c := Callee(w, h, frame, s); c.Some? ==> Strip(c.value.1) == c.value.1
    decreases s
  {
    match s
    case IfNotNil(_, body) => CalleeIsStripped(w, h, frame, body);
    case IfResetter(e, otherwise) =>
      CalleeIsStripped(w, h, frame, otherwise);
      var at := At(h, frame, Read(e));
      if at.Some? && w.dynamic(at.value).Some? {
        StripTwice(w.dynamic(at.value).value);
      }
    case CallReset(_, t) => StripTwice(t);
    case _ =>
  }

  lemma FieldReturns(env: Env, ts: Typing, others: World, w: World, h: Heap, a: Loc, t: Type, fields: seq<FieldVar>,
                     i: nat, n: nat)
    requires IsPackage(env) && AllAccepted(env) && IsSound(env, ts, w) && Answers(env, ts, others, w, n)
    requires Fits(env, ts, h) && (a, t) in ts && Generated(env, t) == Some(fields) && i < |fields|
    requires EndsWithin(env, others, h, a, t, n + 1)
    ensures StepReturns(w, h, FrameAt(a, fields), EmitField(env, fields[i]))
  {
    var frame, s := FrameAt(a, fields), EmitField(env, fields[i]);
    ProgramFieldAchieves(env, ts, w, h, a, t, fields, i);
    UnfinishedExactlyWhen(w, h, frame, s);
    SameDynamicSameCallee(w, others, h, frame, s);
    FieldCalleeIsTyped(env, ts, w, h, a, t, i);
    CalleeIsStripped(w, h, frame, s);
    var c := CallOfField(env, others, h, a, fields, i);
    if c.Some? {
      assert Leads(env, others, h, a, t, c.value);
      CalleeReturns(env, ts, others, w, h, c.value, n);
    }
  }

  /** On any heap on which the calls of a are less than n deep, each of these statements returns. */
  ghost predicate StepsReturn(env: Env, ts: Typing, others: World, w: World, a: Loc, t: Type, frame: Frame,
                              body: seq<Stmt>, n: nat)
    requires Valid(env)
  {
    forall h, i | Fits(env, ts, h) && EndsWithin(env, others, h, a, t, n) && 0 <= i < |body| ::
      StepReturns(w, h, frame, body[i])
  }

  ghost predicate StepReturns(w: World, h: Heap, frame: Frame, s: Stmt) {
    var after := Exec(w, h, frame, s); after.Returned? && Toward(h, after.heap)
  }

  /** One after the other they return. */
  lemma {:induction false} StepsAllReturn(env: Env, ts: Typing, others: World, w: World, h: Heap, a: Loc, t: Type,
                                          frame: Frame, body: seq<Stmt>, n: nat) returns (after: Heap)
    requires Valid(env) && StepsReturn(env, ts, others, w, a, t, frame, body, n)
    requires Fits(env, ts, h) && EndsWithin(env, others, h, a, t, n)
    ensures ExecAll(w, h, frame, body) == Returned(after) && Toward(h, after)
    decreases |body|
  {
    if body == [] {
      after := h;
    } else {
      var last := body[|body| - 1];
      var before := StepsAllReturn(env, ts, others, w, h, a, t, frame, body[..|body| - 1], n);
      TowardKeepsFit(env, ts, h, before);
      StillEndsWithin(env, others, h, before, a, t, n);
      assert StepReturns(w, before, frame, last);
      after := Exec(w, before, frame, last).heap;
      TowardIsTransitive(h, before, after);
    }
  }

  lemma GeneratedReturns(env: Env, ts: Typing, others: World, w: World, h: Heap, a: Loc, t: Type, fields: seq<FieldVar>,
                         n: nat)
    requires IsPackage(env) && AllAccepted(env) && IsSound(env, ts, w) && Answers(env, ts, others, w, n)
    requires Fits(env, ts, h) && (a, t) in ts && Generated(env, t) == Some(fields)
    requires EndsWithin(env, others, h, a, t, n + 1)
    ensures CallMethod(env, w, h, Some(a), fields).Returned?
  {
    GeneratedStepsReturn(env, ts, others, w, a, t, fields, n);
    var after := StepsAllReturn(env, ts, others, w, h, a, t, FrameAt(a, fields), EmitFields(env, fields), n + 1);
  }

  lemma GeneratedStepsReturn(env: Env, ts: Typing, others: World, w: World, a: Loc, t: Type, fields: seq<FieldVar>,
                             n: nat)
    requires IsPackage(env) && AllAccepted(env) && IsSound(env, ts, w) && Answers(env, ts, others, w, n)
    requires (a, t) in ts && Generated(env, t) == Some(fields)
    ensures StepsReturn(env, ts, others, w, a, t, FrameAt(a, fields), EmitFields(env, fields), n + 1)
  {
    var body := EmitFields(env, fields);
    forall h, i | Fits(env, ts, h) && EndsWithin(env, others, h, a, t, n + 1) && 0 <= i < |body|
      ensures StepReturns(w, h, FrameAt(a, fields), body[i])
    {
      FieldReturns(env, ts, others, w, h, a, t, fields, i, n);
    }
  }

  lemma AboveAnswers(env: Env, ts: Typing, others: World, w: World, n: nat)
    requires IsProgram(env, ts, others) && OthersReturn(env, ts, others) && IsSound(env, ts, w)
    requires Answers(env, ts, others, w, n)
    ensures Answers(env, ts, others, Above(env, others, w), n + 1)
  {
    forall h, a, t | Fits(env, ts, h) && (a, t) in ts && EndsWithin(env, others, h, a, t, n + 1)
      ensures Called(env, others, w, h, a, t).Returned?
    {
      if Generated(env, t).Some? {
        GeneratedReturns(env, ts, others, w, h, a, t, Generated(env, t).value, n);
      }
    }
  }

  lemma {:induction false} RunningAnswers(env: Env, ts: Typing, others: World, n: nat) returns (w: World)
    requires IsProgram(env, ts, others) && OthersReturn(env, ts, others)
    ensures w == Running(env, others, n) && IsSound(env, ts, w) && Answers(env, ts, others, w, n)
  {
    if n == 0 {
      w := Ground(env, others);
      GroundIsSound(env, ts, others);
    } else {
      var v := RunningAnswers(env, ts, others, n - 1);
      AboveIsSound(env, ts, others, v);
      AboveAnswers(env, ts, others, v, n - 1);
      w := Above(env, others, v);
    }
  }

  /**
   * If the calls a method leads to are finitely deep as the heap stands, it
   * returns: clearing on the way makes no new calls.
   */
  lemma ReturnsWhenItEnds(env: Env, ts: Typing, others: World, h: Heap, a: Loc, t: Type, n: nat)
    requires IsProgram(env, ts, others) && OthersReturn(env, ts, others) && Fits(env, ts, h) && (a, t) in ts
    requires EndsWithin(env, others, h, a, t, n)
    ensures RunTo(env, others, h, a, t, n).Returned?
  {
    var w := RunningAnswers(env, ts, others, n);
  }
}
