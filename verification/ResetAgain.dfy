/** Resetting twice: a method that calls no other Reset finds nothing left to do. */
module ResetAgain {
  import opened Wrappers
  import opened ResetTypes
  import opened ResetEmit
  import opened ResetRun
  import opened ResetMethods
  import opened ResetCalls

  /** The statement calls nothing and changes nothing. */
  predicate IsSettled(w: World, h: Heap, frame: Frame, s: Stmt) {
    Callee(w, h, frame, s).None? && Exec(w, h, frame, s) == Returned(h)
  }

  /** Whatever literals the statement assigns are those of zero values. */
  predicate SetsZero(s: Stmt) {
    match s
    case SetZero(_, zero) => BitsOf(zero) == 0
    case SetConverted(_, _, zero) => BitsOf(zero) == 0
    case IfNotNil(_, body) => SetsZero(body)
    case IfResetter(_, otherwise) => SetsZero(otherwise)
    case _ => true
  }

  lemma {:induction false} EmittedSetsZero(env: Env, e: Text, t: Type, typ: Type, depth: nat)
    ensures SetsZero(Emit(env, e, t, typ, depth))
    decreases Unfoldings(depth), typ, 1
  {
    match typ
    case Paren(x) => EmittedSetsZero(env, e, t, x, depth);
    case Ident(n) =>
      if IsBasic(n) && n !in env.types {
        ZeroIsZeroConstant(n);
      } else if n != "error" && n != "any" {
        NamedSetsZero(env, e, t, typ, n, depth);
      }
    case Index(b, _) => NamedSetsZero(env, e, t, typ, GenericName(b), depth);
    case Star(x) =>
      var p := if depth > 0 || e.Deref? then Group(e) else e;
      EmittedSetsZero(env, Deref(p), x, x, depth + 1);
    case _ =>
  }

  lemma {:induction false} NamedSetsZero(env: Env, e: Text, t: Type, typ: Type, name: string, depth: nat)
    ensures SetsZero(EmitNamed(env, e, t, typ, name, depth))
    decreases Unfoldings(depth), typ, 0
  {
    if IsFollowed(env, name, depth) {
      FollowedIsDefined(env, e, t, typ, name, depth);
      EmittedSetsZero(env, e, t, env.types[name].def, depth + 1);
    } else if IsUnfoldedName(env, name) {
      PlainIsDefined(env, e, t, typ, name, depth);
      FoldedSetsZero(env, e, t, typ, name, depth);
    } else {
      NamedIsOneOf(env, e, t, typ, name, depth);
      OthersSetZero(e, t, typ);
    }
  }

  lemma OthersSetZero(e: Text, t: Type, typ: Type)
    ensures SetsZero(CallReset(e, t)) && SetsZero(SetEmpty(e, typ)) && SetsZero(SetNil(e))
    ensures SetsZero(EmitUnknown(e, typ))
  {
    assert SetsZero(SetNew(e, typ));
  }

  lemma FoldedSetsZero(env: Env, e: Text, t: Type, typ: Type, name: string, depth: nat)
    requires IsUnfoldedName(env, name) && !IsFollowed(env, name, depth)
    ensures SetsZero(EmitUnfolded(env, e, t, typ, name, depth))
  {
    FoldedIsDefined(env, e, t, typ, name, depth);
    OthersSetZero(e, t, typ);
    if depth <= MAX_RESET_DEPTH {
      ZeroIsZeroConstant(env.types[name].def.name);
    }
  }

  lemma ZeroedIsZero(h: Heap, a: Loc)
    ensures IsZero(Zeroed(h, a), a) && (IsZero(h, a) <==> Zeroed(h, a) == h)
  {
    if Zeroed(h, a) == h {
      forall l | l in h.leaves && Within(l, a)
        ensures h.leaves[l] == ZeroLeaf(h.leaves[l])
      {
        assert Zeroed(h, a).leaves[l] == ZeroLeaf(h.leaves[l]);
      }
    }
  }

  lemma ZeroStays(h: Heap, h': Heap, a: Loc)
    requires Toward(h, h') && IsZero(h, a)
    ensures IsZero(h', a)
  {
    forall l | l in h'.leaves && Within(l, a)
      ensures h'.leaves[l] == ZeroLeaf(h'.leaves[l])
    {
      assert LeafToward(h.leaves[l], h'.leaves[l]);
    }
  }

  /** A statement without branches, on a variable that is still where it was. */
  lemma SettledAtStays(h: Heap, h': Heap, a: Loc, s: Stmt)
    requires Toward(h, h') && ExecAt(h, Some(a), s) == Returned(h) && !ExecAt(h', Some(a), s).Panicked? && SetsZero(s)
    ensures ExecAt(h', Some(a), s) == Returned(h')
  {
    if s.SetEmpty? || s.SetNew? {
      ZeroedIsZero(h, a);
      ZeroStays(h, h', a);
      ZeroedIsZero(h', a);
    } else {
      assert LeafToward(h.leaves[a], h'.leaves[a]);
      LeafStays(h, h', a, s);
    }
  }

  lemma LeafIsSet(h: Heap, a: Loc)
    ensures forall x :: WithLeaf(h, a, x).leaves[a] == x
    ensures forall x | a in h.leaves && h.leaves[a] == x :: WithLeaf(h, a, x) == h
  {
    forall x | a in h.leaves && h.leaves[a] == x
      ensures WithLeaf(h, a, x) == h
    {
      assert h.leaves[a := x] == h.leaves;
    }
  }

  lemma LeafStays(h: Heap, h': Heap, a: Loc, s: Stmt)
    requires a in h.leaves && a in h'.leaves && LeafToward(h.leaves[a], h'.leaves[a]) && Toward(h, h')
    requires !s.SetEmpty? && !s.SetNew? && SetsZero(s) && ExecAt(h, Some(a), s) == Returned(h)
    requires !ExecAt(h', Some(a), s).Panicked?
    ensures ExecAt(h', Some(a), s) == Returned(h')
  {
    LeafIsSet(h, a);
    LeafIsSet(h', a);
    if s.Clear? && h'.leaves[a].at.Some? {
      var m := h'.leaves[a].at.value;
      assert h.maps == h.maps[m := {}];
      assert h'.maps == h'.maps[m := {}];
    }
  }

  /** What has settled stays so. */
  lemma {:induction false} SettledStays(w: World, h: Heap, h': Heap, frame: Frame, s: Stmt)
    requires Toward(h, h') && IsSettled(w, h, frame, s) && !Exec(w, h', frame, s).Panicked? && SetsZero(s)
    ensures IsSettled(w, h', frame, s)
    decreases s
  {
    if Callee(w, h', frame, s).Some? {
      CalleeStays(w, h, h', frame, s);
    }
    match s
    case IfNotNil(p, body) =>
      AtStays(h, h', frame, Read(p));
      var a := At(h', frame, Read(p)).value;
      assert LeafToward(h.leaves[a], h'.leaves[a]);
      if h'.leaves[a].to.Some? {
        SettledStays(w, h, h', frame, body);
      }
    case IfResetter(e, otherwise) =>
      AtStays(h, h', frame, Read(e));
      SettledStays(w, h, h', frame, otherwise);
    case CallReset(e, _) => AtStays(h, h', frame, Read(e));
    case Nothing(_) =>
    case SetZero(e, _) => PlainStays(w, h, h', frame, e, s);
    case SetConverted(e, _, _) => PlainStays(w, h, h', frame, e, s);
    case SetNil(e) => PlainStays(w, h, h', frame, e, s);
    case SetEmpty(e, _) => PlainStays(w, h, h', frame, e, s);
    case SetNew(e, _) => PlainStays(w, h, h', frame, e, s);
    case Reslice(e) => PlainStays(w, h, h', frame, e, s);
    case Clear(e) => PlainStays(w, h, h', frame, e, s);
  }

  /** A statement that is carried out on the variable e. */
  predicate IsPlainAt(w: World, h: Heap, frame: Frame, e: Text, s: Stmt) {
    Exec(w, h, frame, s) == ExecAt(h, At(h, frame, Read(e)), s)
  }

  lemma PlainStays(w: World, h: Heap, h': Heap, frame: Frame, e: Text, s: Stmt)
    requires Toward(h, h') && IsPlainAt(w, h, frame, e, s) && IsPlainAt(w, h', frame, e, s)
    requires Exec(w, h, frame, s) == Returned(h) && !Exec(w, h', frame, s).Panicked? && SetsZero(s)
    ensures Exec(w, h', frame, s) == Returned(h')
  {
    AtStays(h, h', frame, Read(e));
    SettledAtStays(h, h', At(h', frame, Read(e)).value, s);
  }

  /** Done once more on the same variable, it changes nothing. */
  lemma TwiceAtIsOnce(h: Heap, a: Loc, s: Stmt)
    requires ExecAt(h, Some(a), s).Returned?
    ensures var after := ExecAt(h, Some(a), s).heap; ExecAt(after, Some(a), s) == Returned(after)
  {
    var after := ExecAt(h, Some(a), s).heap;
    if s.SetEmpty? || s.SetNew? {
      ZeroedIsZero(h, a);
      ZeroedIsZero(after, a);
    } else {
      LeafIsSet(after, a);
      if s.Clear? && h.leaves[a].at.Some? {
        assert after.maps[h.leaves[a].at.value := {}] == after.maps;
      }
    }
  }

  lemma PlainSettles(w: World, h: Heap, h': Heap, frame: Frame, e: Text, s: Stmt)
    requires Toward(h, h') && IsPlainAt(w, h, frame, e, s) && IsPlainAt(w, h', frame, e, s)
    requires Exec(w, h, frame, s) == Returned(h') && !Exec(w, h', frame, s).Panicked?
    ensures Exec(w, h', frame, s) == Returned(h')
  {
    AtStays(h, h', frame, Read(e));
    TwiceAtIsOnce(h, At(h, frame, Read(e)).value, s);
  }

  /** A statement that calls nothing leaves itself nothing to do, even if the pointers it went through were cleared. */
  lemma {:induction false} RunSettles(w: World, h: Heap, h': Heap, frame: Frame, s: Stmt)
    requires Toward(h, h') && Callee(w, h, frame, s).None?
    requires Exec(w, h, frame, s) == Returned(h') && !Exec(w, h', frame, s).Panicked?
    ensures IsSettled(w, h', frame, s)
    decreases s
  {
    if Callee(w, h', frame, s).Some? {
      CalleeStays(w, h, h', frame, s);
    }
    match s
    case IfNotNil(p, body) =>
      AtStays(h, h', frame, Read(p));
      var a := At(h', frame, Read(p)).value;
      assert LeafToward(h.leaves[a], h'.leaves[a]);
      if h'.leaves[a].to.Some? {
        RunSettles(w, h, h', frame, body);
      }
    case IfResetter(e, otherwise) =>
      AtStays(h, h', frame, Read(e));
      RunSettles(w, h, h', frame, otherwise);
    case CallReset(_, _) =>
    case Nothing(_) =>
    case SetZero(e, _) => PlainSettles(w, h, h', frame, e, s);
    case SetConverted(e, _, _) => PlainSettles(w, h, h', frame, e, s);
    case SetNil(e) => PlainSettles(w, h, h', frame, e, s);
    case SetEmpty(e, _) => PlainSettles(w, h, h', frame, e, s);
    case SetNew(e, _) => PlainSettles(w, h, h', frame, e, s);
    case Reslice(e) => PlainSettles(w, h, h', frame, e, s);
    case Clear(e) => PlainSettles(w, h, h', frame, e, s);
  }

  // ---------------------------------------------------------------- whole methods

  ghost predicate AllSettled(env: Env, w: World, h: Heap, frame: Frame, fields: seq<FieldVar>) {
    forall i | 0 <= i < |fields| :: IsSettled(w, h, frame, EmitField(env, fields[i]))
  }

  /** As the heap stands, no statement for one of the fields calls a Reset method. */
  ghost predicate CallsNothing(env: Env, w: World, h: Heap, frame: Frame, fields: seq<FieldVar>) {
    forall i | 0 <= i < |fields| :: Callee(w, h, frame, EmitField(env, fields[i])).None?
  }

  lemma {:induction false} SettledMethodDoesNothing(env: Env, w: World, h: Heap, frame: Frame, fields: seq<FieldVar>)
    requires AllSettled(env, w, h, frame, fields)
    ensures ExecAll(w, h, frame, EmitFields(env, fields)) == Returned(h)
  {
    if fields != [] {
      var front, body := fields[..|fields| - 1], EmitFields(env, fields);
      assert body[..|body| - 1] == EmitFields(env, front);
      SettledMethodDoesNothing(env, w, h, frame, front);
      assert IsSettled(w, h, frame, EmitField(env, fields[|fields| - 1]));
    }
  }

  lemma {:induction false} FieldsSettle(env: Env, ts: Typing, w: World, scope: Scope, h: Heap, frame: Frame,
                                        fields: seq<FieldVar>)
    requires Valid(env) && IsSound(env, ts, w) && Fits(env, ts, h) && IsFrame(ts, frame, fields)
    requires FieldsFine(env, scope, fields) && AreWhole(env, fields) && CallsNothing(env, w, h, frame, fields)
    ensures var after := ExecAll(w, h, frame, EmitFields(env, fields));
            after.Returned? && Toward(h, after.heap) && AllSettled(env, w, after.heap, frame, fields)
  {
    if fields != [] {
      var front, last := fields[..|fields| - 1], fields[|fields| - 1];
      FieldsSettle(env, ts, w, scope, h, frame, front);
      var body := EmitFields(env, fields);
      assert body[..|body| - 1] == EmitFields(env, front);
      var before := ExecAll(w, h, frame, EmitFields(env, front)).heap;
      OneMoreSettles(env, ts, w, scope, h, before, frame, last);
      var after := Exec(w, before, frame, EmitField(env, last)).heap;
      TowardIsTransitive(h, before, after);
      TowardKeepsFit(env, ts, h, before);
      AllStaySettled(env, ts, w, scope, before, after, frame, front);
      LastIsSettled(env, w, after, frame, fields);
    }
  }

  lemma AllStaySettled(env: Env, ts: Typing, w: World, scope: Scope, h: Heap, h': Heap, frame: Frame,
                       fields: seq<FieldVar>)
    requires Valid(env) && IsSound(env, ts, w) && Fits(env, ts, h) && IsFrame(ts, frame, fields) && Toward(h, h')
    requires FieldsFine(env, scope, fields) && AreWhole(env, fields) && AllSettled(env, w, h, frame, fields)
    ensures AllSettled(env, w, h', frame, fields)
  {
    forall i | 0 <= i < |fields|
      ensures IsSettled(w, h', frame, EmitField(env, fields[i]))
    {
      FieldStaysSettled(env, ts, w, scope, h, h', frame, fields, i);
    }
  }

  lemma LastIsSettled(env: Env, w: World, h: Heap, frame: Frame, fields: seq<FieldVar>)
    requires fields != [] && AllSettled(env, w, h, frame, fields[..|fields| - 1])
    requires IsSettled(w, h, frame, EmitField(env, fields[|fields| - 1]))
    ensures AllSettled(env, w, h, frame, fields)
  {
    var front := fields[..|fields| - 1];
    forall i | 0 <= i < |front|
      ensures IsSettled(w, h, frame, EmitField(env, fields[i]))
    {
      assert IsSettled(w, h, frame, EmitField(env, front[i]));
    }
  }

  lemma OneMoreSettles(env: Env, ts: Typing, w: World, scope: Scope, h: Heap, before: Heap, frame: Frame, f: FieldVar)
    requires Valid(env) && IsSound(env, ts, w) && Fits(env, ts, h) && Toward(h, before) && (frame(f.name), f.typ) in ts
    requires FieldFine(env, scope, f.typ) && IsWhole(env, f.typ) && Callee(w, h, frame, EmitField(env, f)).None?
    ensures var after := Exec(w, before, frame, EmitField(env, f));
            after.Returned? && Toward(before, after.heap) && IsSettled(w, after.heap, frame, EmitField(env, f))
  {
    var s := EmitField(env, f);
    TowardKeepsFit(env, ts, h, before);
    FieldClears(env, ts, w, scope, before, frame, f);
    UnfinishedExactlyWhen(w, before, frame, s);
    if Callee(w, before, frame, s).Some? {
      CalleeStays(w, h, before, frame, s);
    }
    var after := Exec(w, before, frame, s).heap;
    TowardKeepsFit(env, ts, before, after);
    FieldClears(env, ts, w, scope, after, frame, f);
    RunSettles(w, before, after, frame, s);
  }

  lemma FieldStaysSettled(env: Env, ts: Typing, w: World, scope: Scope, h: Heap, h': Heap, frame: Frame,
                          fields: seq<FieldVar>, i: nat)
    requires Valid(env) && IsSound(env, ts, w) && Fits(env, ts, h) && IsFrame(ts, frame, fields) && Toward(h, h')
    requires FieldsFine(env, scope, fields) && AreWhole(env, fields) && i < |fields|
    requires IsSettled(w, h, frame, EmitField(env, fields[i]))
    ensures IsSettled(w, h', frame, EmitField(env, fields[i]))
  {
    TowardKeepsFit(env, ts, h, h');
    FieldClears(env, ts, w, scope, h', frame, fields[i]);
    EmittedSetsZero(env, Field(fields[i].name), fields[i].typ, fields[i].typ, 0);
    SettledStays(w, h, h', frame, EmitField(env, fields[i]));
  }

  /**
   * A generated method that Go accepts and that calls no Reset method, as the
   * heap stands, returns; called again it returns the very same heap, however
   * its pointers alias and whatever it cleared of itself on the way.
   */
  lemma ResettingAgainChangesNothing(env: Env, ts: Typing, w: World, h: Heap, a: Loc, t: Type, n: string)
    requires IsPackage(env) && IsTypeOf(env, t, n) && IsAccepted(env, n)
    requires IsSound(env, ts, w) && Fits(env, ts, h) && (a, t) in ts
    requires CallsNothing(env, w, h, FrameAt(a, TargetFields(env, n)), TargetFields(env, n))
    ensures var after := CallMethod(env, w, h, Some(a), TargetFields(env, n));
            after.Returned? && CallMethod(env, w, after.heap, Some(a), TargetFields(env, n)) == after
  {
    MethodAcceptedExactlyWhenFine(env, n);
    var fields := TargetFields(env, n);
    FrameIsTyped(ts, a, fields);
    FineFieldsSettle(env, ts, w, ScopeOf(env, n), h, a, fields);
  }

  lemma FineFieldsSettle(env: Env, ts: Typing, w: World, scope: Scope, h: Heap, a: Loc, fields: seq<FieldVar>)
    requires Valid(env) && IsSound(env, ts, w) && Fits(env, ts, h) && IsFrame(ts, FrameAt(a, fields), fields)
    requires FieldsFine(env, scope, fields) && AreWhole(env, fields)
    requires CallsNothing(env, w, h, FrameAt(a, fields), fields)
    ensures var after := CallMethod(env, w, h, Some(a), fields);
            after.Returned? && CallMethod(env, w, after.heap, Some(a), fields) == after
  {
    var frame := FrameAt(a, fields);
    FieldsSettle(env, ts, w, scope, h, frame, fields);
    SettledMethodDoesNothing(env, w, ExecAll(w, h, frame, EmitFields(env, fields)).heap, frame, fields);
  }
}
