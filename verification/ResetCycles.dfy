/**
 * Structs that point to each other: programs whose methods clear no link, and
 * cycles that are and are not cut on the way.
 */
module ResetCycles {
  import opened Wrappers
  import opened ResetTypes
  import opened ResetEmit
  import opened ResetRun
  import opened ResetMethods
  import opened ResetCalls
  import opened ResetLinks

  // ---------------------------------------------------------------- linked structs

  /** A definition whose variables hold no pointer. */
  predicate IsPlainDef(def: Type) {
    def.Slice? || def.Map? || def.Interface? || def.Other? || (def.Ident? && IsBasic(def.name))
  }

  /**
   * A type of fields of linked structs, behind so many pointers: values of
   * predeclared types, slices, maps, functions, channels and interfaces, names
   * defined by these, names that have a method, such as structs with a generated
   * one, and pointers to all these.
   */
  predicate IsLinkType(env: Env, t: Type, depth: nat) {
    match t
    case Paren(x) => IsLinkType(env, x, depth)
    case Star(x) => IsLinkType(env, x, depth + 1)
    case Ident(n) => IsPredeclaredType(n) || IsLinkName(env, n, depth)
    case Index(b, _) => IsLinkName(env, GenericName(b), depth)
    case Slice(_) => true
    case Map(_, _) => true
    case Interface(_) => true
    case Other(_) => true
    case _ => false
  }

  predicate IsLinkName(env: Env, n: string, depth: nat) {
    && n in env.types
    && (env.types[n].HasMethod()
        || (env.types[n].IsPlain() && IsPlainDef(env.types[n].def) && depth <= MAX_RESET_DEPTH))
  }

  ghost predicate IsLinked(env: Env) {
    forall t: Type | Generated(env, t).Some? :: AreLinkFields(env, Generated(env, t).value)
  }

  predicate AreLinkFields(env: Env, fields: seq<FieldVar>) {
    forall i | 0 <= i < |fields| :: IsLinkType(env, fields[i].typ, 0)
  }

  /** All pointer variables whose type is written out. */
  ghost function Pointers(ts: Typing): iset<Loc> {
    iset l: Loc | IsPointer(ts, l)
  }

  ghost predicate IsPointer(ts: Typing, l: Loc) {
    exists x :: (l, Star(x)) in ts
  }

  /** The Reset methods of others leave pointers alone. */
  ghost predicate OthersKeep(env: Env, ts: Typing, others: World)
    requires Valid(env)
  {
    forall h, a, t | Fits(env, ts, h) && (a, t) in ts && Generated(env, t).None? ::
      CallKeeps(Pointers(ts), h, others.reset(h, a, t))
  }

  lemma PointersAreLeaves(env: Env, ts: Typing, h: Heap, l: Loc)
    requires Valid(env) && Fits(env, ts, h) && l in Pointers(ts)
    ensures l in h.leaves && h.leaves[l].Pointer?
  {
    var x :| (l, Star(x)) in ts;
    assert FitsAt(env, ts, h, l, Under(env, Star(x)));
  }

  /** A step that changes at most one variable, and that no pointer, leaves the pointers alone. */
  lemma OtherLeavesKeep(env: Env, ts: Typing, h: Heap, a: Loc, x: Leaf)
    requires Valid(env) && Fits(env, ts, h) && a in h.leaves && !h.leaves[a].Pointer?
    ensures SameAt(h, WithLeaf(h, a, x), Pointers(ts))
  {
    forall l | l in Pointers(ts)
      ensures l != a
    {
      PointersAreLeaves(env, ts, h, l);
    }
  }

  lemma LinkFieldKeeps(env: Env, ts: Typing, others: World, h: Heap, a: Loc, fields: seq<FieldVar>, i: nat)
    requires IsPackage(env) && Fits(env, ts, h) && HasFields(ts, a, fields) && HasDistinctNames(fields) && i < |fields|
    requires IsLinkType(env, fields[i].typ, 0)
    ensures StatementKeeps(others, Pointers(ts), h, FrameAt(a, fields), EmitField(env, fields[i]))
  {
    var f, l, frame := fields[i], FieldLoc(a, i), FrameAt(a, fields);
    IndexOfField(fields, i);
    assert frame(f.name) == l;
    LinkTypeKeeps(env, ts, others, h, frame, Field(f.name), l, f.typ, f.typ, 0);
  }

  /** The variable a is denoted by e, through links. */
  ghost predicate IsReached(env: Env, ts: Typing, h: Heap, frame: Frame, e: Text, a: Loc, t: Type)
    requires Valid(env)
  {
    && Fits(env, ts, h) && (a, t) in ts && At(h, frame, Read(e)) == Some(a)
    && Loads(h, frame, Read(e)) <= Pointers(ts)
  }

  /** The statement for a variable of such a type goes through links to its call, or makes none and clears no link. */
  lemma {:induction false} LinkTypeKeeps(env: Env, ts: Typing, others: World, h: Heap, frame: Frame, e: Text, a: Loc,
                                         t: Type, typ: Type, depth: nat)
    requires Valid(env) && IsReached(env, ts, h, frame, e, a, t) && IsExact(t, typ) && IsLinkType(env, typ, depth)
    ensures StatementKeeps(others, Pointers(ts), h, frame, Emit(env, e, t, typ, depth))
    decreases typ, 0
  {
    StripChangesNothing(env, t);
    StripChangesNothing(env, typ);
    match typ
    case Paren(x) => LinkTypeKeeps(env, ts, others, h, frame, e, a, t, x, depth);
    case Star(x) => PointerKeeps(env, ts, others, h, frame, e, a, t, x, depth);
    case Ident(n) =>
      if IsPredeclaredType(n) {
        assert n !in env.types;
        PlainDefKeeps(env, ts, others, h, frame, e, a, t, typ, depth);
      } else {
        LinkNameKeeps(env, ts, others, h, frame, e, a, t, typ, n, depth);
      }
    case Index(b, _) => LinkNameKeeps(env, ts, others, h, frame, e, a, t, typ, GenericName(b), depth);
    case _ => PlainDefKeeps(env, ts, others, h, frame, e, a, t, typ, depth);
  }

  lemma {:induction false} PointerKeeps(env: Env, ts: Typing, others: World, h: Heap, frame: Frame, e: Text, a: Loc,
                                        t: Type, x: Type, depth: nat)
    requires Valid(env) && IsReached(env, ts, h, frame, e, a, t) && IsExact(t, Star(x))
    requires IsLinkType(env, x, depth + 1)
    ensures StatementKeeps(others, Pointers(ts), h, frame, Emit(env, e, t, Star(x), depth))
    decreases x, 1
  {
    var p := if depth > 0 || e.Deref? then Group(e) else e;
    var body := Emit(env, Deref(p), x, x, depth + 1);
    assert Emit(env, e, t, Star(x), depth) == IfNotNil(p, body);
    assert (a, Star(x)) in ts;
    assert IsPointer(ts, a);
    PointersAreLeaves(env, ts, h, a);
    assert FitsAt(env, ts, h, a, Under(env, Star(x)));
    var to := h.leaves[a].to;
    if to.Some? {
      assert Loads(h, frame, Read(Deref(p))) == Loads(h, frame, Read(p)) + iset{a};
      LinkTypeKeeps(env, ts, others, h, frame, Deref(p), to.value, x, x, depth + 1);
    }
    GuardKeeps(others, Pointers(ts), h, frame, p, body, a);
  }

  lemma GuardKeeps(w: World, links: iset<Loc>, h: Heap, frame: Frame, p: Text, body: Stmt, a: Loc)
    requires At(h, frame, Read(p)) == Some(a) && a in links && Loads(h, frame, Read(p)) <= links
    requires a in h.leaves && h.leaves[a].Pointer?
    requires h.leaves[a].to.Some? ==> StatementKeeps(w, links, h, frame, body)
    ensures StatementKeeps(w, links, h, frame, IfNotNil(p, body))
  {
    GuardCallee(w, h, frame, p, body, a);
    GuardRuns(w, h, frame, p, body, a);
    assert Denoted(h, frame, Read(p)) == iset{a};
  }

  /** The statement sets or empties the variable e alone. */
  predicate IsEmptying(s: Stmt, e: Text) {
    match s
    case SetZero(x, _) => x == e
    case SetConverted(x, _, _) => x == e
    case SetNil(x) => x == e
    case Reslice(x) => x == e
    case Clear(x) => x == e
    case _ => false
  }

  /** Emptying a variable that is no pointer clears no link. */
  lemma EmptyingKeeps(env: Env, ts: Typing, w: World, h: Heap, frame: Frame, e: Text, a: Loc, s: Stmt)
    requires Valid(env) && Fits(env, ts, h) && At(h, frame, Read(e)) == Some(a) && IsEmptying(s, e)
    requires a in h.leaves && !h.leaves[a].Pointer?
    ensures StatementKeeps(w, Pointers(ts), h, frame, s)
  {
    forall x
      ensures SameAt(h, WithLeaf(h, a, x), Pointers(ts))
    {
      OtherLeavesKeep(env, ts, h, a, x);
    }
  }

  lemma PlainDefIsNoPointer(env: Env, ts: Typing, h: Heap, a: Loc, t: Type, def: Type)
    requires Valid(env) && Fits(env, ts, h) && (a, t) in ts && Under(env, t) == Under(env, def)
    requires IsPlainDef(def) || def == Ident("error") || def == Ident("any")
    ensures a in h.leaves && !h.leaves[a].Pointer?
  {
    assert FitsAt(env, ts, h, a, Under(env, t));
    assert def.Ident? ==> def.name !in env.types;
  }

  lemma PlainDefKeeps(env: Env, ts: Typing, others: World, h: Heap, frame: Frame, e: Text, a: Loc, t: Type, def: Type,
                      depth: nat)
    requires Valid(env) && IsReached(env, ts, h, frame, e, a, t) && Under(env, t) == Under(env, def)
    requires IsPlainDef(def) || def == Ident("error") || def == Ident("any")
    ensures StatementKeeps(others, Pointers(ts), h, frame, Emit(env, e, t, def, depth))
  {
    PlainDefIsNoPointer(env, ts, h, a, t, def);
    PlainDefIsEmptied(env, e, t, def, depth);
    EmptyingKeeps(env, ts, others, h, frame, e, a, Emit(env, e, t, def, depth));
  }

  lemma PlainDefIsEmptied(env: Env, e: Text, t: Type, def: Type, depth: nat)
    requires Valid(env) && (IsPlainDef(def) || def == Ident("error") || def == Ident("any"))
    ensures IsEmptying(Emit(env, e, t, def, depth), e)
  {
    assert def.Ident? ==> def.name !in env.types;
  }

  lemma LinkNameKeeps(env: Env, ts: Typing, others: World, h: Heap, frame: Frame, e: Text, a: Loc, t: Type, typ: Type,
                      n: string, depth: nat)
    requires Valid(env) && IsReached(env, ts, h, frame, e, a, t) && Under(env, t) == Under(env, typ)
    requires typ == Ident(n) || (typ.Index? && GenericName(typ.base) == n)
    requires IsLinkName(env, n, depth)
    ensures StatementKeeps(others, Pointers(ts), h, frame, EmitNamed(env, e, t, typ, n, depth))
  {
    var d := env.types[n];
    if d.HasMethod() {
      assert EmitNamed(env, e, t, typ, n, depth) == CallReset(e, t);
      CallKeepsLinks(env, ts, others, h, frame, e, a, t);
    } else {
      assert Under(env, t) == Under(env, d.def);
      PlainDefIsNoPointer(env, ts, h, a, t, d.def);
      NameOfPlainIsEmptied(env, e, t, typ, n, depth);
      EmptyingKeeps(env, ts, others, h, frame, e, a, EmitNamed(env, e, t, typ, n, depth));
    }
  }

  lemma CallKeepsLinks(env: Env, ts: Typing, others: World, h: Heap, frame: Frame, e: Text, a: Loc, t: Type)
    requires Valid(env) && IsReached(env, ts, h, frame, e, a, t)
    ensures StatementKeeps(others, Pointers(ts), h, frame, CallReset(e, t))
  {
  }

  lemma NameOfPlainIsEmptied(env: Env, e: Text, t: Type, typ: Type, n: string, depth: nat)
    requires Valid(env) && n in env.types && env.types[n].IsPlain() && IsPlainDef(env.types[n].def)
    requires depth <= MAX_RESET_DEPTH
    ensures IsEmptying(EmitNamed(env, e, t, typ, n, depth), e)
  {
    PlainIsDefined(env, e, t, typ, n, depth);
    if IsUnfolded(env.types[n].def) {
      UnfoldedPlainIsEmptied(env, e, t, typ, n, depth);
    }
  }

  lemma UnfoldedPlainIsEmptied(env: Env, e: Text, t: Type, typ: Type, n: string, depth: nat)
    requires Valid(env) && IsUnfoldedName(env, n) && IsPlainDef(env.types[n].def) && depth <= MAX_RESET_DEPTH
    ensures IsEmptying(EmitUnfolded(env, e, t, typ, n, depth), e)
  {
    PlainDefIsEmptied(env, e, t, env.types[n].def, depth + 1);
  }

  lemma LinkedKeepsLinks(env: Env, ts: Typing, others: World)
    requires IsPackage(env) && IsLinked(env) && OthersKeep(env, ts, others)
    ensures KeepsLinks(env, ts, others, Pointers(ts))
  {
    forall h, a, t | Fits(env, ts, h) && (a, t) in ts && Generated(env, t).Some?
      ensures FieldsKeep(env, others, Pointers(ts), h, a, t)
    {
      var fields := Generated(env, t).value;
      GeneratedIsTarget(env, t);
      assert AreLinkFields(env, fields);
      forall i | 0 <= i < |fields|
        ensures StatementKeeps(others, Pointers(ts), h, FrameAt(a, fields), EmitField(env, fields[i]))
      {
        LinkFieldKeeps(env, ts, others, h, a, fields, i);
      }
    }
  }

  /**
   * Structs linked by pointers to each other: their Reset returns exactly when
   * every chain of links from the receiver comes to an end, and is done within
   * the length of the longest.
   */
  lemma LinkedReturnsExactlyWhenItEnds(env: Env, ts: Typing, others: World, h: Heap, a: Loc, t: Type, n: nat)
    requires IsProgram(env, ts, others) && OthersReturn(env, ts, others) && IsLinked(env) && OthersKeep(env, ts, others)
    requires Fits(env, ts, h) && (a, t) in ts
    ensures RunTo(env, others, h, a, t, n).Returned? <==> EndsWithin(env, others, h, a, t, n)
  {
    LinkedKeepsLinks(env, ts, others);
    ReturnsExactlyWhenItEnds(env, ts, others, Pointers(ts), h, a, t, n);
  }

  // ---------------------------------------------------------------- a cycle that is never left

  const NOWHERE := (p: string, n: string) => External(NotImported, false, IsValue, true)

  function Package(fields: seq<FieldDecl>): Env {
    var node := Decl(Struct(fields, Opaque("", {"N"}, {}, {})), false, [], false, true, NoReset);
    Env(map["N" := node], NOWHERE, {"N"}, {}, {}, (t: Type) => false, map["N" := 0])
  }

  /** type N struct{ next *N } */
  const LIST := Package([Listed(["next"], Star(Ident("N")))])

  const NODE := Loc(0, [])

  /** One node whose next is itself. */
  const LOOP := Heap(map[FieldLoc(NODE, 0) := Pointer(Some(NODE))], map[], {})

  const NEXT := FieldVar("next", Star(Ident("N")))

  lemma ListFields()
    ensures Generated(LIST, Ident("N")) == Some([NEXT])
  {
    var d := Listed(["next"], Star(Ident("N")));
    assert FieldsOfOne(d) == [NEXT] by {
      assert ["next"][..0] == [];
    }
    assert [d][..0] == [];
  }

  /** The node and its field. */
  ghost const LOOP_TYPES: Typing := iset{(NODE, Ident("N")), (FieldLoc(NODE, 0), Star(Ident("N")))}

  /** No other type of the package has Reset. */
  const NO_OTHERS := World((h: Heap, a: Loc, t: Type) => Returned(h), (a: Loc) => None)

  lemma ListIsPackage()
    ensures IsPackage(LIST) && TargetFields(LIST, "N") == [NEXT]
  {
    ListFields();
    assert Rank(LIST, LIST.types["N"].def) == 0;
    assert IsWhole(LIST, LIST.types["N"].def) && IsWhole(LIST, NEXT.typ);
  }

  lemma NodesHaveReset()
    ensures Valid(LIST) && CallFine(LIST, Ident("N"), AtPointer) && Under(LIST, Ident("N")).Struct?
  {
    ListIsPackage();
    assert Normal(LIST, Ident("N")) == Ident("N");
    assert NameHasReset(LIST, "N");
  }

  lemma NextIsFine(scope: Scope)
    requires Usable(LIST, scope, false, "nil")
    ensures Valid(LIST) && FieldsFine(LIST, scope, [NEXT])
  {
    NodesHaveReset();
    assert Fine(LIST, scope, Ident("N"), Ident("N"), AtPointer, 1);
    assert FieldFine(LIST, scope, NEXT.typ);
  }

  lemma ListIsTarget()
    ensures IsTarget(LIST, "N") && TargetFields(LIST, "N") == [NEXT]
  {
    ListFields();
  }

  lemma ListHasRoom()
    ensures IsTarget(LIST, "N") && HasRoom(LIST, "N")
  {
    ListIsTarget();
    assert ReceiverName("N") == "n" && NEXT.name != "Reset";
    assert Usable(LIST, ScopeOf(LIST, "N"), false, "nil");
  }

  lemma OneMethodIsAccepted(env: Env, n: string, fields: seq<FieldVar>)
    requires IsPackage(env) && IsTarget(env, n) && HasRoom(env, n) && env.types.Keys == {n}
    requires TargetFields(env, n) == fields && FieldsFine(env, ScopeOf(env, n), fields)
    ensures AllAccepted(env)
  {
    MethodAcceptedExactlyWhenFine(env, n);
  }

  /** Go accepts the method of the list. */
  lemma ListIsAccepted()
    ensures IsPackage(LIST) && AllAccepted(LIST)
  {
    assert IsPackage(LIST) by {
      ListIsPackage();
    }
    ListIsTarget();
    assert HasRoom(LIST, "N") by {
      ListHasRoom();
    }
    NextIsFine(ScopeOf(LIST, "N"));
    OneMethodIsAccepted(LIST, "N", [NEXT]);
  }

  lemma NodeAndNext()
    ensures Strip(Ident("N")) == Ident("N") && Generated(LIST, Ident("N")) == Some([NEXT])
    ensures Strip(NEXT.typ) == NEXT.typ && Generated(LIST, NEXT.typ).None?
  {
    ListFields();
  }

  lemma LoopIsLaidOut()
    ensures IsLaidOut(LIST, LOOP_TYPES)
  {
    NodeAndNext();
    assert HasFields(LOOP_TYPES, NODE, [NEXT]);
    forall a, t | (a, t) in LOOP_TYPES
      ensures (a, Strip(t)) in LOOP_TYPES
      ensures Generated(LIST, t).Some? ==> HasFields(LOOP_TYPES, a, Generated(LIST, t).value)
    {
      if t != NEXT.typ {
        assert a == NODE && t == Ident("N");
      }
    }
  }

  lemma LoopFits()
    ensures Valid(LIST) && Fits(LIST, LOOP_TYPES, LOOP) && (NODE, Ident("N")) in LOOP_TYPES
  {
    LoopIsLaidOut();
    NodesHaveReset();
    var next := FieldLoc(NODE, 0);
    assert LOOP.leaves[next] == Pointer(Some(NODE));
    assert FitsAt(LIST, LOOP_TYPES, LOOP, next, Star(Ident("N")));
  }

  lemma ListIsLinked()
    ensures IsLinked(LIST)
  {
    assert IsLinkType(LIST, NEXT.typ, 0);
    forall t: Type | Generated(LIST, t).Some?
      ensures AreLinkFields(LIST, Generated(LIST, t).value)
    {
      ListFields();
      assert Generated(LIST, t) == Some([NEXT]);
    }
  }

  lemma NoOthersAreSound(env: Env, ts: Typing)
    requires Valid(env)
    ensures OthersAreSound(env, ts, NO_OTHERS) && OthersReturn(env, ts, NO_OTHERS) && OthersKeep(env, ts, NO_OTHERS)
  {
  }

  /** The one-node cycle is a heap of a program Go accepts, of linked structs, whose other methods all return. */
  lemma LoopIsOfAProgram()
    ensures IsProgram(LIST, LOOP_TYPES, NO_OTHERS) && OthersReturn(LIST, LOOP_TYPES, NO_OTHERS)
    ensures IsLinked(LIST) && OthersKeep(LIST, LOOP_TYPES, NO_OTHERS)
    ensures Fits(LIST, LOOP_TYPES, LOOP) && (NODE, Ident("N")) in LOOP_TYPES
  {
    ListIsAccepted();
    LoopFits();
    ListIsLinked();
    NoOthersAreSound(LIST, LOOP_TYPES);
  }

  lemma NextIsReset()
    ensures EmitField(LIST, NEXT) == IfNotNil(Field("next"), CallReset(Deref(Field("next")), Ident("N")))
  {
  }

  /** The method called for a variable does nothing but call itself for it. */
  ghost predicate CallsItself(env: Env, h: Heap, a: Loc, t: Type, fields: seq<FieldVar>) {
    forall w: World :: CallMethod(env, w, h, Some(a), fields) == CallOf(w, h, a, t)
  }

  lemma {:induction false} SelfCallNeverReturns(env: Env, others: World, h: Heap, a: Loc, t: Type,
                                                fields: seq<FieldVar>, n: nat) returns (w: World)
    requires Generated(env, t) == Some(fields) && Strip(t) == t && CallsItself(env, h, a, t, fields)
    ensures w == Running(env, others, n) && w.reset(h, a, t).Unfinished?
  {
    if n == 0 {
      w := Ground(env, others);
    } else {
      var v := SelfCallNeverReturns(env, others, h, a, t, fields, n - 1);
      w := Above(env, others, v);
      assert Called(env, others, v, h, a, t) == CallMethod(env, v, h, Some(a), fields);
    }
  }

  /** However many calls deep it is run, Reset on a node that is its own next has not returned. */
  lemma OneNodeCycleNeverReturns(others: World, n: nat)
    ensures RunTo(LIST, others, LOOP, NODE, Ident("N"), n).Unfinished?
  {
    ListFields();
    forall w: World
      ensures CallMethod(LIST, w, LOOP, Some(NODE), [NEXT]) == CallOf(w, LOOP, NODE, Ident("N"))
    {
      LoopCallsItself(w);
    }
    var w := SelfCallNeverReturns(LIST, others, LOOP, NODE, Ident("N"), [NEXT], n);
  }

  lemma LoopCallsItself(w: World)
    ensures CallMethod(LIST, w, LOOP, Some(NODE), [NEXT]) == CallOf(w, LOOP, NODE, Ident("N"))
  {
    var s, frame := EmitField(LIST, NEXT), FrameAt(NODE, [NEXT]);
    NextIsReset();
    LoopCalls(w, frame);
    assert EmitFields(LIST, [NEXT]) == [s];
    assert [s][..0] == [];
    assert ExecAll(w, LOOP, frame, []) == Returned(LOOP);
  }

  lemma LoopCalls(w: World, frame: Frame)
    requires frame("next") == FieldLoc(NODE, 0)
    ensures Exec(w, LOOP, frame, IfNotNil(Field("next"), CallReset(Deref(Field("next")), Ident("N"))))
         == CallOf(w, LOOP, NODE, Ident("N"))
  {
    assert At(LOOP, frame, Read(Field("next"))) == Some(FieldLoc(NODE, 0));
    assert At(LOOP, frame, Read(Deref(Field("next")))) == Some(NODE);
  }

  // ---------------------------------------------------------------- a cycle that is cut on the way

  /** type N struct{ cells *[1]*N; link **N } */
  const CELLS := Array(Opaque("1", {}, {}, {}), Star(Ident("N")))
  const CUT := Package([Listed(["cells"], Star(CELLS)), Listed(["link"], Star(Star(Ident("N"))))])

  const CELL := Loc(1, [0])

  /** A node whose cells hold it, and whose link is that cell. */
  const KNOT := Heap(map[FieldLoc(NODE, 0) := Pointer(Some(Loc(1, []))), FieldLoc(NODE, 1) := Pointer(Some(CELL)),
                         CELL := Pointer(Some(NODE))], map[], {})

  const CUT_FIELDS := [FieldVar("cells", Star(CELLS)), FieldVar("link", Star(Star(Ident("N"))))]

  lemma CutFields()
    ensures Generated(CUT, Ident("N")) == Some(CUT_FIELDS)
  {
    var c, l := Listed(["cells"], Star(CELLS)), Listed(["link"], Star(Star(Ident("N"))));
    assert FieldsOfOne(c) == [FieldVar("cells", Star(CELLS))] by {
      assert ["cells"][..0] == [];
    }
    assert FieldsOfOne(l) == [FieldVar("link", Star(Star(Ident("N"))))] by {
      assert ["link"][..0] == [];
    }
    assert [c, l][..1] == [c] && [c][..0] == [];
    assert FieldsOf([c]) == [FieldVar("cells", Star(CELLS))];
    assert FieldsOf([c, l]) == CUT_FIELDS;
  }

  function CutLink(): Stmt {
    var p := Group(Deref(Field("link")));
    IfNotNil(Field("link"), IfNotNil(p, CallReset(Deref(p), Ident("N"))))
  }

  lemma CutStatements()
    ensures EmitField(CUT, CUT_FIELDS[0]) == IfNotNil(Field("cells"), SetEmpty(Deref(Field("cells")), CELLS))
    ensures EmitField(CUT, CUT_FIELDS[1]) == CutLink()
  {
    var p := Group(Deref(Field("link")));
    assert Emit(CUT, Deref(Field("cells")), CELLS, CELLS, 1) == SetEmpty(Deref(Field("cells")), CELLS);
    assert Emit(CUT, Deref(p), Ident("N"), Ident("N"), 2) == CallReset(Deref(p), Ident("N"));
    var t := Star(Ident("N"));
    assert Emit(CUT, Deref(Field("link")), t, t, 1) == IfNotNil(p, CallReset(Deref(p), Ident("N")));
  }

  /** Where the link of a node leads, through the cell. */
  lemma LinkLeads(w: World, h: Heap, frame: Frame)
    requires frame("link") in h.leaves && h.leaves[frame("link")] == Pointer(Some(CELL))
    requires CELL in h.leaves && h.leaves[CELL].Pointer?
    ensures var to := h.leaves[CELL].to;
            && Callee(w, h, frame, CutLink()) == (if to.Some? then Some((to.value, Ident("N"))) else None)
            && (to.None? ==> Exec(w, h, frame, CutLink()) == Returned(h))
  {
    var p := Group(Deref(Field("link")));
    assert At(h, frame, Read(Field("link"))) == Some(frame("link"));
    assert Read(p) == Load(Read(Field("link"))) && At(h, frame, Read(p)) == Some(CELL);
    assert Read(Deref(p)) == Load(Read(p)) && At(h, frame, Read(Deref(p))) == h.leaves[CELL].to;
    var inner := IfNotNil(p, CallReset(Deref(p), Ident("N")));
    var to := h.leaves[CELL].to;
    assert to.None? ==> Exec(w, h, frame, inner) == Returned(h) && Callee(w, h, frame, inner) == None;
    assert to.Some? ==> Callee(w, h, frame, CallReset(Deref(p), Ident("N"))) == Some((to.value, Ident("N")));
    assert to.Some? ==> Callee(w, h, frame, inner) == Some((to.value, Ident("N")));
    assert CutLink() == IfNotNil(Field("link"), inner);
    assert Callee(w, h, frame, CutLink()) == Callee(w, h, frame, inner);
  }

  lemma KnotFrame()
    ensures var frame := FrameAt(NODE, CUT_FIELDS);
            frame("cells") == FieldLoc(NODE, 0) && frame("link") == FieldLoc(NODE, 1)
    ensures FieldLoc(NODE, 0) != FieldLoc(NODE, 1)
  {
    assert HasDistinctNames(CUT_FIELDS);
    IndexOfField(CUT_FIELDS, 0);
    IndexOfField(CUT_FIELDS, 1);
    assert FieldLoc(NODE, 0).path[0] == 0 && FieldLoc(NODE, 1).path[0] == 1;
  }

  lemma KnotLeads(others: World)
    ensures Leads(CUT, others, KNOT, NODE, Ident("N"), (NODE, Ident("N")))
  {
    CutFields();
    CutStatements();
    KnotFrame();
    LinkLeads(others, KNOT, FrameAt(NODE, CUT_FIELDS));
    assert CallOfField(CUT, others, KNOT, NODE, CUT_FIELDS, 1) == Some((NODE, Ident("N")));
  }

  /** As the heap stands, the node leads to itself for ever. */
  lemma {:induction false} KnotNeverEnds(others: World, n: nat)
    ensures !EndsWithin(CUT, others, KNOT, NODE, Ident("N"), n)
    decreases n
  {
    KnotLeads(others);
    if EndsWithin(CUT, others, KNOT, NODE, Ident("N"), n) {
      CallsEnd(CUT, others, KNOT, NODE, Ident("N"), (NODE, Ident("N")), n);
      KnotNeverEnds(others, n - 1);
    }
  }

  /** Clearing the cells clears the cell the link goes through, and nothing else. */
  lemma CellsAreCleared(w: World, frame: Frame)
    requires frame("cells") == FieldLoc(NODE, 0)
    ensures Exec(w, KNOT, frame, IfNotNil(Field("cells"), SetEmpty(Deref(Field("cells")), CELLS)))
         == Returned(Zeroed(KNOT, Loc(1, [])))
  {
    KnotFrame();
    assert KNOT.leaves[FieldLoc(NODE, 0)] == Pointer(Some(Loc(1, [])));
    assert At(KNOT, frame, Read(Field("cells"))) == Some(FieldLoc(NODE, 0));
    assert At(KNOT, frame, Read(Deref(Field("cells")))) == Some(Loc(1, []));
  }

  lemma AfterCells()
    ensures var h := Zeroed(KNOT, Loc(1, []));
            && FieldLoc(NODE, 1) in h.leaves && h.leaves[FieldLoc(NODE, 1)] == Pointer(Some(CELL))
            && CELL in h.leaves && h.leaves[CELL] == Pointer(None)
  {
    assert Within(CELL, Loc(1, [])) && !Within(FieldLoc(NODE, 1), Loc(1, []));
    assert KNOT.leaves[FieldLoc(NODE, 1)] == Pointer(Some(CELL));
  }

  /** Yet Reset returns at once: clearing the cells clears the pointer its link goes through. */
  lemma KnotIsCut(others: World)
    ensures RunTo(CUT, others, KNOT, NODE, Ident("N"), 1).Returned?
  {
    CutFields();
    var w, frame := Running(CUT, others, 0), FrameAt(NODE, CUT_FIELDS);
    RunIsCall(CUT, others, KNOT, NODE, Ident("N"), CUT_FIELDS, 1);
    CutRuns(w, frame);
  }

  lemma CutRuns(w: World, frame: Frame)
    requires frame == FrameAt(NODE, CUT_FIELDS)
    ensures ExecAll(w, KNOT, frame, EmitFields(CUT, CUT_FIELDS)).Returned?
  {
    var after := Zeroed(KNOT, Loc(1, []));
    CutStatements();
    KnotFrame();
    CellsAreCleared(w, frame);
    AfterCells();
    var first, second := EmitField(CUT, CUT_FIELDS[0]), EmitField(CUT, CUT_FIELDS[1]);
    assert EmitFields(CUT, CUT_FIELDS) == [first, second];
    assert [first, second][..1] == [first] && [first][..0] == [];
    assert ExecAll(w, KNOT, frame, [first]) == Returned(after);
    LinkLeads(w, after, frame);
  }
}
