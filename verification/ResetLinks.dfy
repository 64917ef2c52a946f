/**
 * When generated methods return: exactly when the calls they lead to are
 * finitely deep, as long as no step clears a pointer such a call goes through.
 */
module ResetLinks {
  import opened Wrappers
  import opened ResetTypes
  import opened ResetEmit
  import opened ResetRun
  import opened ResetMethods
  import opened ResetCalls

  // ---------------------------------------------------------------- the pointers a call goes through

  /** The pointers loaded from to get to a variable. */
  ghost function Loads(h: Heap, frame: Frame, x: Expr): iset<Loc> {
    match x
    case Variable(_) => iset{}
    case Load(p) => Loads(h, frame, p) + Denoted(h, frame, p)
    case Empty(_) => iset{}
  }

  ghost function Denoted(h: Heap, frame: Frame, x: Expr): iset<Loc> {
    if At(h, frame, x).Some? then iset{At(h, frame, x).value} else iset{}
  }

  /** The pointers a statement goes through on the way to the call it makes. */
  ghost function Follows(h: Heap, frame: Frame, s: Stmt): iset<Loc> {
    match s
    case IfNotNil(p, body) => Loads(h, frame, Read(p)) + Denoted(h, frame, Read(p)) + Follows(h, frame, body)
    case IfResetter(e, otherwise) => Loads(h, frame, Read(e)) + Follows(h, frame, otherwise)
    case CallReset(e, _) => Loads(h, frame, Read(e))
    case _ => iset{}
  }

  ghost predicate SameAt(h: Heap, h': Heap, links: iset<Loc>) {
    forall l | l in links :: (l in h.leaves <==> l in h'.leaves) && (l in h.leaves ==> h'.leaves[l] == h.leaves[l])
  }

  lemma {:induction false} SameLoadsSameVariable(h: Heap, h': Heap, links: iset<Loc>, frame: Frame, x: Expr)
    requires SameAt(h, h', links) && Loads(h, frame, x) <= links
    ensures At(h', frame, x) == At(h, frame, x)
  {
    if x.Load? {
      SameLoadsSameVariable(h, h', links, frame, x.of);
      var at := At(h, frame, x.of);
      assert at.Some? ==> at.value in Loads(h, frame, x);
    }
  }

  lemma {:induction false} SameLinksSameCallee(w: World, h: Heap, h': Heap, links: iset<Loc>, frame: Frame, s: Stmt)
    requires SameAt(h, h', links) && Follows(h, frame, s) <= links
    ensures Callee(w, h', frame, s) == Callee(w, h, frame, s)
    decreases s
  {
    match s
    case IfNotNil(p, body) =>
      SameLoadsSameVariable(h, h', links, frame, Read(p));
      SameLinksSameCallee(w, h, h', links, frame, body);
      var at := At(h, frame, Read(p));
      assert at.Some? ==> at.value in Follows(h, frame, s);
    case IfResetter(e, otherwise) =>
      SameLoadsSameVariable(h, h', links, frame, Read(e));
      SameLinksSameCallee(w, h, h', links, frame, otherwise);
    case CallReset(e, _) => SameLoadsSameVariable(h, h', links, frame, Read(e));
    case _ =>
  }

  /** The statement goes through links to its call, or makes none and leaves the links alone. */
  ghost predicate StatementKeeps(w: World, links: iset<Loc>, h: Heap, frame: Frame, s: Stmt) {
    if Callee(w, h, frame, s).Some? then Follows(h, frame, s) <= links
    else Exec(w, h, frame, s).Returned? ==> SameAt(h, Exec(w, h, frame, s).heap, links)
  }

  /** No single statement of a generated method, and no other Reset method, clears a link. */
  ghost predicate KeepsLinks(env: Env, ts: Typing, others: World, links: iset<Loc>)
    requires Valid(env)
  {
    && (forall h, a, t | Fits(env, ts, h) && (a, t) in ts && Generated(env, t).Some? ::
          FieldsKeep(env, others, links, h, a, t))
    && (forall h, a, t | Fits(env, ts, h) && (a, t) in ts && Generated(env, t).None? ::
          CallKeeps(links, h, others.reset(h, a, t)))
  }

  ghost predicate FieldsKeep(env: Env, w: World, links: iset<Loc>, h: Heap, a: Loc, t: Type)
    requires Generated(env, t).Some?
  {
    var fields := Generated(env, t).value;
    forall i | 0 <= i < |fields| :: StatementKeeps(w, links, h, FrameAt(a, fields), EmitField(env, fields[i]))
  }

  ghost predicate CallKeeps(links: iset<Loc>, h: Heap, o: Outcome) {
    o.Returned? ==> SameAt(h, o.heap, links)
  }

  /** In the world w no call that returns has cleared a link. */
  ghost predicate WorldKeeps(env: Env, ts: Typing, others: World, w: World, links: iset<Loc>)
    requires Valid(env)
  {
    && w.dynamic == others.dynamic
    && forall h, a, t | Fits(env, ts, h) && (a, t) in ts :: CallKeeps(links, h, w.reset(h, a, t))
  }

  lemma ProgramCalleeIsTyped(env: Env, ts: Typing, others: World, h: Heap, a: Loc, t: Type, i: nat)
    requires IsProgram(env, ts, others) && Fits(env, ts, h) && (a, t) in ts
    requires Generated(env, t).Some? && i < |Generated(env, t).value|
    ensures var c := CallOfField(env, others, h, a, Generated(env, t).value, i);
            c.Some? ==> c.value in ts && Strip(c.value.1) == c.value.1
  {
    var fields := Generated(env, t).value;
    var w := Ground(env, others);
    GroundIsSound(env, ts, others);
    FieldCalleeIsTyped(env, ts, w, h, a, t, i);
    SameDynamicSameCallee(w, others, h, FrameAt(a, fields), EmitField(env, fields[i]));
    CalleeIsStripped(others, h, FrameAt(a, fields), EmitField(env, fields[i]));
  }

  // ---------------------------------------------------------------- running keeps the links

  lemma StatementRunKeeps(env: Env, ts: Typing, others: World, w: World, links: iset<Loc>, h: Heap, a: Loc, t: Type,
                          fields: seq<FieldVar>, i: nat)
    requires IsProgram(env, ts, others) && Fits(env, ts, h) && (a, t) in ts && WorldKeeps(env, ts, others, w, links)
    requires Generated(env, t) == Some(fields) && i < |fields| && KeepsLinks(env, ts, others, links)
    ensures CallKeeps(links, h, Exec(w, h, FrameAt(a, fields), EmitField(env, fields[i])))
  {
    var frame, s := FrameAt(a, fields), EmitField(env, fields[i]);
    assert FieldsKeep(env, others, links, h, a, t);
    assert StatementKeeps(others, links, h, frame, s);
    SameDynamicSameCallee(w, others, h, frame, s);
    var c := CallOfField(env, others, h, a, fields, i);
    if c.Some? {
      ProgramCalleeIsTyped(env, ts, others, h, a, t, i);
      UnfinishedExactlyWhen(w, h, frame, s);
      assert (c.value.0, c.value.1) in ts;
      assert CallKeeps(links, h, w.reset(h, c.value.0, c.value.1));
    } else {
      QuietExecIsTheSame(w, others, h, frame, s);
    }
  }

  /** What comes of running a while has cleared no link. */
  ghost predicate IsKept(links: iset<Loc>, h: Heap, o: Outcome) {
    o.Returned? ==> Toward(h, o.heap) && SameAt(h, o.heap, links)
  }

  /** On any heap, none of these statements clears a link. */
  ghost predicate StepsKeep(env: Env, ts: Typing, w: World, links: iset<Loc>, frame: Frame, body: seq<Stmt>)
    requires Valid(env)
  {
    forall h, s | Fits(env, ts, h) && s in body :: IsKept(links, h, Exec(w, h, frame, s))
  }

  /** Nor do they one after the other. */
  lemma {:induction false} StepsAllKeep(env: Env, ts: Typing, w: World, links: iset<Loc>, h: Heap, frame: Frame,
                                        body: seq<Stmt>)
    returns (o: Outcome)
    requires Valid(env) && StepsKeep(env, ts, w, links, frame, body) && Fits(env, ts, h)
    ensures o == ExecAll(w, h, frame, body) && IsKept(links, h, o)
    decreases |body|
  {
    if body == [] {
      o := Returned(h);
    } else {
      var before := StepsAllKeep(env, ts, w, links, h, frame, body[..|body| - 1]);
      if before.Returned? {
        TowardKeepsFit(env, ts, h, before.heap);
        o := Exec(w, before.heap, frame, body[|body| - 1]);
        assert IsKept(links, before.heap, o);
        if o.Returned? {
          TowardIsTransitive(h, before.heap, o.heap);
        }
      } else {
        o := before;
      }
    }
  }

  lemma MethodStepsKeep(env: Env, ts: Typing, others: World, w: World, links: iset<Loc>, a: Loc, t: Type,
                        fields: seq<FieldVar>)
    requires IsProgram(env, ts, others) && IsSound(env, ts, w) && (a, t) in ts && Generated(env, t) == Some(fields)
    requires WorldKeeps(env, ts, others, w, links) && KeepsLinks(env, ts, others, links)
    ensures StepsKeep(env, ts, w, links, FrameAt(a, fields), EmitFields(env, fields))
  {
    var body := EmitFields(env, fields);
    forall h, s | Fits(env, ts, h) && s in body
      ensures IsKept(links, h, Exec(w, h, FrameAt(a, fields), s))
    {
      var i :| 0 <= i < |body| && body[i] == s;
      StatementRunKeeps(env, ts, others, w, links, h, a, t, fields, i);
      ProgramFieldAchieves(env, ts, w, h, a, t, fields, i);
    }
  }

  lemma MethodKeeps(env: Env, ts: Typing, others: World, w: World, links: iset<Loc>, h: Heap, a: Loc, t: Type,
                    fields: seq<FieldVar>)
    requires IsProgram(env, ts, others) && IsSound(env, ts, w) && Fits(env, ts, h) && (a, t) in ts
    requires WorldKeeps(env, ts, others, w, links) && KeepsLinks(env, ts, others, links)
    requires Generated(env, t) == Some(fields)
    ensures CallKeeps(links, h, CallMethod(env, w, h, Some(a), fields))
  {
    MethodStepsKeep(env, ts, others, w, links, a, t, fields);
    var o := StepsAllKeep(env, ts, w, links, h, FrameAt(a, fields), EmitFields(env, fields));
  }

  lemma AboveKeeps(env: Env, ts: Typing, others: World, w: World, links: iset<Loc>)
    requires IsProgram(env, ts, others) && IsSound(env, ts, w)
    requires WorldKeeps(env, ts, others, w, links) && KeepsLinks(env, ts, others, links)
    ensures WorldKeeps(env, ts, others, Above(env, others, w), links)
  {
    forall h, a, t | Fits(env, ts, h) && (a, t) in ts
      ensures CallKeeps(links, h, Called(env, others, w, h, a, t))
    {
      if Generated(env, t).Some? {
        MethodKeeps(env, ts, others, w, links, h, a, t, Generated(env, t).value);
      }
    }
  }

  // ---------------------------------------------------------------- what returns is finitely deep

  /** Heaps with the same links lead to the same calls. */
  lemma LeadsWithSameLinks(env: Env, ts: Typing, others: World, links: iset<Loc>, h: Heap, h': Heap, a: Loc, t: Type,
                           i: nat)
    requires IsProgram(env, ts, others) && KeepsLinks(env, ts, others, links) && SameAt(h, h', links)
    requires Fits(env, ts, h) && (a, t) in ts && Generated(env, t).Some? && i < |Generated(env, t).value|
    requires CallOfField(env, others, h, a, Generated(env, t).value, i).Some?
    ensures CallOfField(env, others, h', a, Generated(env, t).value, i)
         == CallOfField(env, others, h, a, Generated(env, t).value, i)
  {
    var fields := Generated(env, t).value;
    assert FieldsKeep(env, others, links, h, a, t);
    assert StatementKeeps(others, links, h, FrameAt(a, fields), EmitField(env, fields[i]));
    SameLinksSameCallee(others, h, h', links, FrameAt(a, fields), EmitField(env, fields[i]));
  }

  lemma {:induction false} EndsWithSameLinks(env: Env, ts: Typing, others: World, links: iset<Loc>, h: Heap, h': Heap,
                                             a: Loc, t: Type, n: nat)
    requires IsProgram(env, ts, others) && KeepsLinks(env, ts, others, links) && SameAt(h, h', links)
    requires Fits(env, ts, h) && Fits(env, ts, h') && (a, t) in ts && EndsWithin(env, others, h, a, t, n)
    ensures EndsWithin(env, others, h', a, t, n)
    decreases n, 1
  {
    if Generated(env, t).Some? {
      forall c | Leads(env, others, h', a, t, c)
        ensures EndsWithin(env, others, h', c.0, c.1, n - 1)
      {
        CallEndsWithSameLinks(env, ts, others, links, h, h', a, t, c, n);
      }
      EndsByCalls(env, others, h', a, t, n);
    }
  }

  lemma {:induction false} CallEndsWithSameLinks(env: Env, ts: Typing, others: World, links: iset<Loc>, h: Heap,
                                                 h': Heap, a: Loc, t: Type, c: (Loc, Type), n: nat)
    requires IsProgram(env, ts, others) && KeepsLinks(env, ts, others, links) && SameAt(h, h', links)
    requires Fits(env, ts, h) && Fits(env, ts, h') && (a, t) in ts && EndsWithin(env, others, h, a, t, n)
    requires Leads(env, others, h', a, t, c)
    ensures n > 0 && EndsWithin(env, others, h', c.0, c.1, n - 1)
    decreases n, 0
  {
    var fields := Generated(env, t).value;
    var i :| 0 <= i < |fields| && CallOfField(env, others, h', a, fields, i) == Some(c);
    LeadsWithSameLinks(env, ts, others, links, h', h, a, t, i);
    assert Leads(env, others, h, a, t, c);
    ProgramCalleeIsTyped(env, ts, others, h', a, t, i);
    CallsEnd(env, others, h, a, t, c, n);
    EndsWithSameLinks(env, ts, others, links, h, h', c.0, c.1, n - 1);
  }

  /** A body that returns has got past each of its statements. */
  lemma {:induction false} PrefixReturns(w: World, h: Heap, frame: Frame, body: seq<Stmt>, i: nat)
    returns (before: Heap)
    requires i < |body| && ExecAll(w, h, frame, body).Returned?
    ensures ExecAll(w, h, frame, body[..i]) == Returned(before) && Exec(w, before, frame, body[i]).Returned?
    decreases |body|
  {
    var front := body[..|body| - 1];
    if i < |front| {
      before := PrefixReturns(w, h, frame, front, i);
      assert front[..i] == body[..i];
    } else {
      before := ExecAll(w, h, frame, front).heap;
    }
  }

  /** The call statement i makes, as the heap stood at the start, has returned when its turn came. */
  lemma CallHasReturned(env: Env, ts: Typing, others: World, w: World, links: iset<Loc>, h: Heap, a: Loc, t: Type,
                        fields: seq<FieldVar>, i: nat, c: (Loc, Type)) returns (before: Heap)
    requires IsProgram(env, ts, others) && IsSound(env, ts, w) && Fits(env, ts, h) && (a, t) in ts
    requires WorldKeeps(env, ts, others, w, links) && KeepsLinks(env, ts, others, links)
    requires Generated(env, t) == Some(fields) && i < |fields| && CallMethod(env, w, h, Some(a), fields).Returned?
    requires CallOfField(env, others, h, a, fields, i) == Some(c)
    ensures Fits(env, ts, before) && SameAt(h, before, links) && c in ts && w.reset(before, c.0, c.1).Returned?
  {
    var frame, s, body := FrameAt(a, fields), EmitField(env, fields[i]), EmitFields(env, fields);
    before := PrefixReturns(w, h, frame, body, i);
    MethodStepsKeep(env, ts, others, w, links, a, t, fields);
    var o := StepsAllKeep(env, ts, w, links, h, frame, body[..i]);
    TowardKeepsFit(env, ts, h, before);
    LeadsWithSameLinks(env, ts, others, links, h, before, a, t, i);
    ProgramCalleeIsTyped(env, ts, others, h, a, t, i);
    SameDynamicSameCallee(w, others, before, frame, s);
    UnfinishedExactlyWhen(w, before, frame, s);
  }

  /** In the world w only calls less than n deep return. */
  ghost predicate OnlyEndingReturn(env: Env, ts: Typing, others: World, w: World, n: nat)
    requires Valid(env)
  {
    forall h, a, t | Fits(env, ts, h) && (a, t) in ts && w.reset(h, a, t).Returned? ::
      EndsWithin(env, others, h, a, t, n)
  }

  lemma CallOfMethodEnds(env: Env, ts: Typing, others: World, w: World, links: iset<Loc>, h: Heap, a: Loc, t: Type,
                         fields: seq<FieldVar>, c: (Loc, Type), n: nat)
    requires IsProgram(env, ts, others) && IsSound(env, ts, w) && Fits(env, ts, h) && (a, t) in ts
    requires WorldKeeps(env, ts, others, w, links) && KeepsLinks(env, ts, others, links)
    requires OnlyEndingReturn(env, ts, others, w, n)
    requires Generated(env, t) == Some(fields) && CallMethod(env, w, h, Some(a), fields).Returned?
    requires Leads(env, others, h, a, t, c)
    ensures EndsWithin(env, others, h, c.0, c.1, n)
  {
    var i :| 0 <= i < |fields| && CallOfField(env, others, h, a, fields, i) == Some(c);
    var before := CallHasReturned(env, ts, others, w, links, h, a, t, fields, i, c);
    assert (c.0, c.1) in ts;
    EndsWithSameLinks(env, ts, others, links, before, h, c.0, c.1, n);
  }

  lemma MethodEnds(env: Env, ts: Typing, others: World, w: World, links: iset<Loc>, h: Heap, a: Loc, t: Type,
                   fields: seq<FieldVar>, n: nat)
    requires IsProgram(env, ts, others) && IsSound(env, ts, w) && Fits(env, ts, h) && (a, t) in ts
    requires WorldKeeps(env, ts, others, w, links) && KeepsLinks(env, ts, others, links)
    requires OnlyEndingReturn(env, ts, others, w, n)
    requires Generated(env, t) == Some(fields) && CallMethod(env, w, h, Some(a), fields).Returned?
    ensures EndsWithin(env, others, h, a, t, n + 1)
  {
    forall c | Leads(env, others, h, a, t, c)
      ensures EndsWithin(env, others, h, c.0, c.1, n)
    {
      CallOfMethodEnds(env, ts, others, w, links, h, a, t, fields, c, n);
    }
    EndsByCalls(env, others, h, a, t, n + 1);
  }

  lemma AboveEnds(env: Env, ts: Typing, others: World, w: World, links: iset<Loc>, n: nat)
    requires IsProgram(env, ts, others) && IsSound(env, ts, w)
    requires WorldKeeps(env, ts, others, w, links) && KeepsLinks(env, ts, others, links)
    requires OnlyEndingReturn(env, ts, others, w, n)
    ensures OnlyEndingReturn(env, ts, others, Above(env, others, w), n + 1)
  {
    forall h, a, t | Fits(env, ts, h) && (a, t) in ts && Called(env, others, w, h, a, t).Returned?
      ensures EndsWithin(env, others, h, a, t, n + 1)
    {
      if Generated(env, t).Some? {
        MethodEnds(env, ts, others, w, links, h, a, t, Generated(env, t).value, n);
      }
    }
  }

  lemma {:induction false} RunningEnds(env: Env, ts: Typing, others: World, links: iset<Loc>, n: nat) returns (w: World)
    requires IsProgram(env, ts, others) && KeepsLinks(env, ts, others, links)
    ensures w == Running(env, others, n) && IsSound(env, ts, w) && WorldKeeps(env, ts, others, w, links)
    ensures OnlyEndingReturn(env, ts, others, w, n)
  {
    if n == 0 {
      w := Ground(env, others);
      GroundIsSound(env, ts, others);
    } else {
      var v := RunningEnds(env, ts, others, links, n - 1);
      AboveIsSound(env, ts, others, v);
      AboveKeeps(env, ts, others, v, links);
      AboveEnds(env, ts, others, v, links, n - 1);
      w := Above(env, others, v);
    }
  }

  /**
   * A call of a generated method returns exactly when the calls it leads to, as
   * the heap stands, are finitely deep: it is then done within that depth. This
   * holds of every program in which no step clears a pointer such calls go
   * through.
   */
  lemma ReturnsExactlyWhenItEnds(env: Env, ts: Typing, others: World, links: iset<Loc>, h: Heap, a: Loc, t: Type,
                                 n: nat)
    requires IsProgram(env, ts, others) && OthersReturn(env, ts, others) && KeepsLinks(env, ts, others, links)
    requires Fits(env, ts, h) && (a, t) in ts
    ensures RunTo(env, others, h, a, t, n).Returned? <==> EndsWithin(env, others, h, a, t, n)
  {
    var w := RunningAnswers(env, ts, others, n);
    var v := RunningEnds(env, ts, others, links, n);
  }
}
