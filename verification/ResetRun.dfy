/**
 * Running what the generator emits, on any heap: pointers may alias, form
 * cycles and lead back into the value being reset.
 */
module ResetRun {
  import opened Wrappers
  import opened ResetTypes
  import opened ResetEmit

  /** A variable: a field or an element, at any depth, of an allocated block. */
  datatype Loc = Loc(block: nat, path: seq<nat>)

  predicate Within(l: Loc, at: Loc) {
    l.block == at.block && at.path <= l.path
  }

  function FieldLoc(a: Loc, i: nat): Loc {
    Loc(a.block, a.path + [i])
  }

  /** What a variable that has no parts holds; Handle stands for functions, channels and interfaces. */
  datatype Leaf =
    | Word(bits: int)
    | Pointer(to: Option<Loc>)
    | SliceHeader(elems: Option<Loc>, len: nat, cap: nat)
    | MapHeader(at: Option<nat>)
    | Handle(of: Option<nat>)

  function ZeroLeaf(x: Leaf): Leaf {
    match x
    case Word(_) => Word(0)
    case Pointer(_) => Pointer(None)
    case SliceHeader(_, _, _) => SliceHeader(None, 0, 0)
    case MapHeader(_) => MapHeader(None)
    case Handle(_) => Handle(None)
  }

  /** maps holds the keys of every map; reset lists the variables a Reset method was called for. */
  datatype Heap = Heap(leaves: map<Loc, Leaf>, maps: map<nat, set<int>>, reset: set<Loc>)

  /** What comes of a call or a statement: a heap, a panic, or nothing so far. */
  datatype Outcome = Returned(heap: Heap) | Panicked | Unfinished

  /**
   * What calling Reset on a variable of a type comes to, and the type whose
   * Reset is found for a variable at run time.
   */
  datatype World = World(reset: (Heap, Loc, Type) -> Outcome, dynamic: Loc -> Option<Type>)

  function WithLeaf(h: Heap, a: Loc, x: Leaf): Heap {
    h.(leaves := h.leaves[a := x])
  }

  function Zeroed(h: Heap, at: Loc): Heap {
    h.(leaves := map l | l in h.leaves :: if Within(l, at) then ZeroLeaf(h.leaves[l]) else h.leaves[l])
  }

  function Logged(h: Heap, a: Loc): Heap {
    h.(reset := h.reset + {a})
  }

  function CallOf(w: World, h: Heap, a: Loc, t: Type): Outcome {
    match w.reset(h, a, Strip(t))
    case Returned(after) => Returned(Logged(after, a))
    case other => other
  }

  /** Where the fields of the receiver are. */
  type Frame = string -> Loc

  /** The variable an expression denotes; none if a nil pointer is loaded from. */
  function At(h: Heap, frame: Frame, x: Expr): Option<Loc> {
    match x
    case Variable(name) => Some(frame(name))
    case Load(p) =>
      (match At(h, frame, p)
       case Some(a) => if a in h.leaves && h.leaves[a].Pointer? then h.leaves[a].to else None
       case None => None)
    case Empty(_) => None
  }

  /** Runs a statement; one that does not fit the memory it meets panics. */
  function Exec(w: World, h: Heap, frame: Frame, s: Stmt): Outcome {
    match s
    case IfNotNil(p, body) =>
      (match At(h, frame, Read(p))
       case Some(a) =>
         if a !in h.leaves || !h.leaves[a].Pointer? then Panicked
         else if h.leaves[a].to.None? then Returned(h)
         else Exec(w, h, frame, body)
       case None => Panicked)
    case IfResetter(e, otherwise) =>
      (match At(h, frame, Read(e))
       case Some(a) =>
         if w.dynamic(a).Some? then CallOf(w, h, a, w.dynamic(a).value) else Exec(w, h, frame, otherwise)
       case None => Panicked)
    case CallReset(e, t) =>
      (match At(h, frame, Read(e))
       case Some(a) => CallOf(w, h, a, t)
       case None => Panicked)
    case SetZero(e, _) => ExecAt(h, At(h, frame, Read(e)), s)
    case SetConverted(e, _, _) => ExecAt(h, At(h, frame, Read(e)), s)
    case SetNil(e) => ExecAt(h, At(h, frame, Read(e)), s)
    case SetEmpty(e, _) => ExecAt(h, At(h, frame, Read(e)), s)
    case SetNew(e, _) => ExecAt(h, At(h, frame, Read(e)), s)
    case Reslice(e) => if e.Deref? then Panicked else ExecAt(h, At(h, frame, Read(e)), s)
    case Clear(e) => ExecAt(h, At(h, frame, Read(e)), s)
    case Nothing(_) => Returned(h)
  }

  /** A statement without branches or calls, on the variable it names. */
  function ExecAt(h: Heap, at: Option<Loc>, s: Stmt): Outcome {
    if at.None? then Panicked
    else
      var a := at.value;
      if s.SetEmpty? || s.SetNew? then Returned(Zeroed(h, a))
      else if a !in h.leaves then Panicked
      else match (s, h.leaves[a])
        case (SetZero(_, zero), Word(_)) => Returned(WithLeaf(h, a, Word(BitsOf(zero))))
        case (SetConverted(_, _, zero), Word(_)) => Returned(WithLeaf(h, a, Word(BitsOf(zero))))
        case (SetNil(_), x) => if x.Word? then Panicked else Returned(WithLeaf(h, a, ZeroLeaf(x)))
        case (Reslice(_), SliceHeader(v, _, cap)) => Returned(WithLeaf(h, a, SliceHeader(v, 0, cap)))
        case (Clear(_), MapHeader(Some(m))) => Returned(h.(maps := h.maps[m := {}]))
        case (Clear(_), MapHeader(None)) => Returned(h)
        case _ => Panicked
  }

  // ---------------------------------------------------------------- cleaner and cleaner

  /** y is x after nothing or after clearing: its zero value, or the same slice with no elements. */
  predicate LeafToward(x: Leaf, y: Leaf) {
    y == x || y == ZeroLeaf(x) || (x.SliceHeader? && y == SliceHeader(x.elems, 0, x.cap))
  }

  /** Every variable and every map is unchanged or cleared. */
  ghost predicate Toward(h: Heap, h': Heap) {
    && h'.leaves.Keys == h.leaves.Keys && h'.maps.Keys == h.maps.Keys && h.reset <= h'.reset
    && (forall l | l in h.leaves :: LeafToward(h.leaves[l], h'.leaves[l]))
    && (forall m | m in h.maps :: h'.maps[m] == h.maps[m] || h'.maps[m] == {})
  }

  lemma TowardIsTransitive(h: Heap, m: Heap, h': Heap)
    requires Toward(h, m) && Toward(m, h')
    ensures Toward(h, h')
  {
    forall l | l in h.leaves
      ensures LeafToward(h.leaves[l], h'.leaves[l])
    {
      assert LeafToward(m.leaves[l], h'.leaves[l]);
    }
  }

  /** The variables of a heap and their types; (a, t) in ts says that a is a variable of type t. */
  type Typing = iset<(Loc, Type)>

  ghost predicate Fits(env: Env, ts: Typing, h: Heap)
    requires Valid(env)
  {
    && IsLaidOut(env, ts)
    && forall a, t | (a, t) in ts :: FitsAt(env, ts, h, a, Under(env, t))
  }

  /** Parentheses make no difference, and the fields of a marked struct are variables. */
  ghost predicate IsLaidOut(env: Env, ts: Typing) {
    forall a, t | (a, t) in ts ::
      (a, Strip(t)) in ts && (Generated(env, t).Some? ==> HasFields(ts, a, Generated(env, t).value))
  }

  ghost predicate HasFields(ts: Typing, a: Loc, fields: seq<FieldVar>) {
    forall i | 0 <= i < |fields| :: (FieldLoc(a, i), fields[i].typ) in ts
  }

  ghost predicate FitsAt(env: Env, ts: Typing, h: Heap, a: Loc, u: Type) {
    if u.Star? then
      a in h.leaves && h.leaves[a].Pointer? && (h.leaves[a].to.None? || (h.leaves[a].to.value, u.elem) in ts)
    else if IsSliceType(env, u) then a in h.leaves && h.leaves[a].SliceHeader?
    else if IsMapType(env, u) then
      a in h.leaves && h.leaves[a].MapHeader? && (h.leaves[a].at.None? || h.leaves[a].at.value in h.maps)
    else if u.Ident? && IsBasic(u.name) then a in h.leaves && h.leaves[a].Word?
    else if u.Other? || IsInterfaceType(env, u) then a in h.leaves && h.leaves[a].Handle?
    else if Nilable(env, u) then a in h.leaves && !h.leaves[a].Word?
    else true
  }

  lemma TowardKeepsFit(env: Env, ts: Typing, h: Heap, h': Heap)
    requires Valid(env) && Fits(env, ts, h) && Toward(h, h')
    ensures Fits(env, ts, h')
  {
    forall a, t | (a, t) in ts
      ensures FitsAt(env, ts, h', a, Under(env, t))
    {
      assert FitsAt(env, ts, h, a, Under(env, t));
      assert a in h.leaves ==> LeafToward(h.leaves[a], h'.leaves[a]);
    }
  }

  // ---------------------------------------------------------------- clean

  ghost predicate IsZero(h: Heap, at: Loc) {
    forall l | l in h.leaves && Within(l, at) :: h.leaves[l] == ZeroLeaf(h.leaves[l])
  }

  /**
   * The variable a of type t is clean, looked at n levels deep: a struct with
   * a generated method if all its fields are; any other variable if it was
   * handed to a Reset method of its own, or is a pointer to nothing or to a
   * clean variable, a slice of length 0, an empty or no map, or zero.
   */
  ghost predicate Clean(env: Env, h: Heap, a: Loc, t: Type, n: nat)
    requires Valid(env)
    decreases n, 0
  {
    if n == 0 then true
    else if Generated(env, t).Some? then
      FieldsClean(env, h, a, Generated(env, t).value, n - 1)
    else
      a in h.reset ||
      var u := Under(env, t);
      if u.Star? then
        && a in h.leaves && h.leaves[a].Pointer?
        && (h.leaves[a].to.None? || Clean(env, h, h.leaves[a].to.value, u.elem, n - 1))
      else if IsSliceType(env, u) then a in h.leaves && h.leaves[a].SliceHeader? && h.leaves[a].len == 0
      else if IsMapType(env, u) then
        && a in h.leaves && h.leaves[a].MapHeader?
        && (h.leaves[a].at.None? || (h.leaves[a].at.value in h.maps && h.maps[h.leaves[a].at.value] == {}))
      else if Nilable(env, u) || (u.Ident? && IsBasic(u.name)) then
        a in h.leaves && h.leaves[a] == ZeroLeaf(h.leaves[a])
      else IsZero(h, a)
  }

  ghost predicate FieldsClean(env: Env, h: Heap, a: Loc, fields: seq<FieldVar>, n: nat)
    requires Valid(env)
    decreases n, 1
  {
    forall i | 0 <= i < |fields| :: Clean(env, h, FieldLoc(a, i), fields[i].typ, n)
  }

  /** Clearing more leaves what is clean clean. */
  lemma {:induction false} TowardKeepsClean(env: Env, h: Heap, h': Heap, a: Loc, t: Type, n: nat)
    requires Valid(env) && Toward(h, h') && Clean(env, h, a, t, n)
    ensures Clean(env, h', a, t, n)
    decreases n, 0
  {
    if n > 0 && Generated(env, t).Some? {
      var fields := Generated(env, t).value;
      FieldsStayClean(env, h, h', a, fields, n - 1);
    } else if n > 0 {
      var u := Under(env, t);
      if a !in h.reset && u.Star? && h.leaves[a].to.Some? {
        TowardKeepsClean(env, h, h', h.leaves[a].to.value, u.elem, n - 1);
      }
      LeafStaysClean(env, h, h', a, t, n);
    }
  }

  lemma {:induction false} FieldsStayClean(env: Env, h: Heap, h': Heap, a: Loc, fields: seq<FieldVar>, n: nat)
    requires Valid(env) && Toward(h, h') && FieldsClean(env, h, a, fields, n)
    ensures FieldsClean(env, h', a, fields, n)
    decreases n, 1
  {
    forall i | 0 <= i < |fields|
      ensures Clean(env, h', FieldLoc(a, i), fields[i].typ, n)
    {
      TowardKeepsClean(env, h, h', FieldLoc(a, i), fields[i].typ, n);
    }
  }

  /** Of a variable no method is generated for, given that what a pointer leads to stays clean. */
  lemma LeafStaysClean(env: Env, h: Heap, h': Heap, a: Loc, t: Type, n: nat)
    requires Valid(env) && Toward(h, h') && n > 0 && Clean(env, h, a, t, n) && Generated(env, t).None?
    requires a in h.reset || !Under(env, t).Star? || h.leaves[a].to.None?
             || Clean(env, h', h.leaves[a].to.value, Under(env, t).elem, n - 1)
    ensures Clean(env, h', a, t, n)
  {
    if a !in h.reset {
      assert a in h.leaves ==> LeafToward(h.leaves[a], h'.leaves[a]);
    }
  }

  /** The zero value of any type is clean. */
  lemma {:induction false} ZeroIsClean(env: Env, ts: Typing, h: Heap, a: Loc, t: Type, n: nat)
    requires Valid(env) && Fits(env, ts, h) && (a, t) in ts && IsZero(h, a)
    ensures Clean(env, h, a, t, n)
    decreases n, 0
  {
    if n > 0 && Generated(env, t).Some? {
      var fields := Generated(env, t).value;
      ZeroFieldsAreClean(env, ts, h, a, fields, n - 1);
    } else {
      assert FitsAt(env, ts, h, a, Under(env, t));
      ZeroLeafIsClean(env, ts, h, a, t, n);
    }
  }

  lemma {:induction false} ZeroFieldsAreClean(env: Env, ts: Typing, h: Heap, a: Loc, fields: seq<FieldVar>, n: nat)
    requires Valid(env) && Fits(env, ts, h) && HasFields(ts, a, fields) && IsZero(h, a)
    ensures FieldsClean(env, h, a, fields, n)
    decreases n, 1
  {
    forall i | 0 <= i < |fields|
      ensures Clean(env, h, FieldLoc(a, i), fields[i].typ, n)
    {
      PartIsZero(h, a, i);
      ZeroIsClean(env, ts, h, FieldLoc(a, i), fields[i].typ, n);
    }
  }

  lemma ZeroLeafIsClean(env: Env, ts: Typing, h: Heap, a: Loc, t: Type, n: nat)
    requires Valid(env) && FitsAt(env, ts, h, a, Under(env, t)) && IsZero(h, a) && (Generated(env, t).None? || n == 0)
    ensures Clean(env, h, a, t, n)
  {
    assert Within(a, a);
  }

  lemma PartIsZero(h: Heap, a: Loc, i: nat)
    requires IsZero(h, a)
    ensures IsZero(h, FieldLoc(a, i))
  {
    forall l | l in h.leaves && Within(l, FieldLoc(a, i))
      ensures Within(l, a)
    {
      assert a.path <= FieldLoc(a, i).path;
    }
  }

  /** The variable a of type t is clean however deep one looks. */
  ghost predicate AllClean(env: Env, h: Heap, a: Loc, t: Type)
    requires Valid(env)
  {
    forall n: nat :: Clean(env, h, a, t, n)
  }

  /**
   * What a call of Reset for the variable a of type t may come to: it does not
   * panic, and if it returns it has cleared variables or left them alone; a
   * generated method has cleaned its receiver.
   */
  ghost predicate IsSoundCall(env: Env, h: Heap, a: Loc, t: Type, o: Outcome)
    requires Valid(env)
  {
    && !o.Panicked?
    && (o.Returned? ==>
          && Toward(h, o.heap)
          && if Generated(env, t).Some? then AllClean(env, o.heap, a, t) else o.heap.reset == h.reset)
  }

  /** Every call is sound on the heaps the types fit; what is found at run time has the type found. */
  ghost predicate IsSound(env: Env, ts: Typing, w: World)
    requires Valid(env)
  {
    && (forall h, a, t | Fits(env, ts, h) && (a, t) in ts :: IsSoundCall(env, h, a, t, w.reset(h, a, t)))
    && FindsTypes(ts, w)
  }

  ghost predicate FindsTypes(ts: Typing, w: World) {
    forall a | w.dynamic(a).Some? :: (a, w.dynamic(a).value) in ts
  }

  /** What running a statement for the variable a of type t has to achieve, if it returns. */
  ghost predicate Achieves(env: Env, h: Heap, a: Loc, t: Type, after: Outcome)
    requires Valid(env)
  {
    !after.Panicked? && (after.Returned? ==> Toward(h, after.heap) && AllClean(env, after.heap, a, t))
  }

  lemma ZeroingClears(env: Env, ts: Typing, h: Heap, a: Loc, t: Type)
    requires Valid(env) && Fits(env, ts, h) && (a, t) in ts
    ensures Achieves(env, h, a, t, Returned(Zeroed(h, a)))
  {
    TowardKeepsFit(env, ts, h, Zeroed(h, a));
    forall n: nat
      ensures Clean(env, Zeroed(h, a), a, t, n)
    {
      ZeroIsClean(env, ts, Zeroed(h, a), a, t, n);
    }
  }

  /** A variable of type t is looked at as one of typ: the same, or what its name is defined by. */
  ghost predicate IsSeenAs(env: Env, t: Type, typ: Type)
    requires Valid(env)
  {
    Under(env, t) == Under(env, typ) && (IsExact(t, typ) || IsDefinedBy(env, t, typ))
  }

  /** The statement meets a variable a of type t, which it was emitted for as one of type typ. */
  ghost predicate Meets(env: Env, ts: Typing, w: World, h: Heap, frame: Frame, e: Text, a: Loc, t: Type, typ: Type,
                        start: Start)
    requires Valid(env)
  {
    && IsSound(env, ts, w) && Fits(env, ts, h) && (a, t) in ts && At(h, frame, Read(e)) == Some(a)
    && IsWhole(env, typ) && IsSeenAs(env, t, typ) && (e.Deref? ==> start != Plainly)
  }

  /** A type no method is generated for, seen as it is or through the names it defines. */
  lemma SeenAsUngenerated(env: Env, t: Type, typ: Type)
    requires Valid(env) && IsSeenAs(env, t, typ) && Generated(env, typ).None?
    ensures Generated(env, t).None?
  {
  }

  /** The call cleans what it is called for, and logging it leaves that clean. */
  lemma CallClears(env: Env, ts: Typing, w: World, h: Heap, a: Loc, t: Type, called: Type)
    requires Valid(env) && IsSound(env, ts, w) && Fits(env, ts, h) && (a, called) in ts
    requires Generated(env, t).None? || Strip(t) == Strip(called)
    ensures Achieves(env, h, a, t, CallOf(w, h, a, called))
  {
    assert (a, Strip(called)) in ts;
    var o := w.reset(h, a, Strip(called));
    assert IsSoundCall(env, h, a, Strip(called), o);
    if o.Returned? {
      var after := Logged(o.heap, a);
      forall n: nat
        ensures Clean(env, after, a, t, n)
      {
        if Generated(env, t).Some? {
          StripTwice(t);
          assert Clean(env, o.heap, a, Strip(called), n);
          SameMethodSameClean(env, o.heap, a, Strip(called), t, n);
          TowardKeepsClean(env, o.heap, after, a, t, n);
        }
      }
    }
  }

  lemma OwnCallClears(env: Env, ts: Typing, w: World, h: Heap, frame: Frame, e: Text, a: Loc, t: Type)
    requires Valid(env) && IsSound(env, ts, w) && Fits(env, ts, h) && (a, t) in ts && At(h, frame, Read(e)) == Some(a)
    ensures Achieves(env, h, a, t, Exec(w, h, frame, CallReset(e, t)))
  {
    CallClears(env, ts, w, h, a, t, t);
  }

  lemma {:induction false} StripTwice(t: Type)
    ensures Strip(Strip(t)) == Strip(t)
  {
    if t.Paren? {
      StripTwice(t.inner);
    }
  }

  lemma SameMethodSameClean(env: Env, h: Heap, a: Loc, t: Type, t': Type, n: nat)
    requires Valid(env) && Strip(t) == Strip(t') && Generated(env, t).Some? && Clean(env, h, a, t, n)
    ensures Clean(env, h, a, t', n)
  {
  }

  lemma UnknownClears(env: Env, ts: Typing, w: World, h: Heap, frame: Frame, e: Text, a: Loc, t: Type, typ: Type,
                      start: Start)
    requires Valid(env) && Meets(env, ts, w, h, frame, e, a, t, typ, start) && Generated(env, t).None?
    ensures Achieves(env, h, a, t, Exec(w, h, frame, EmitUnknown(e, typ)))
  {
    if w.dynamic(a).Some? {
      CallClears(env, ts, w, h, a, t, w.dynamic(a).value);
    } else {
      ZeroingClears(env, ts, h, a, t);
    }
  }

  lemma ReslicingClears(env: Env, ts: Typing, w: World, h: Heap, frame: Frame, e: Text, a: Loc, t: Type, typ: Type,
                        start: Start)
    requires Valid(env) && Meets(env, ts, w, h, frame, e, a, t, typ, start) && Generated(env, t).None?
    requires start == Plainly && IsSliceType(env, Under(env, typ))
    ensures Achieves(env, h, a, t, Exec(w, h, frame, Reslice(e)))
  {
    assert FitsAt(env, ts, h, a, Under(env, t));
  }

  lemma ClearingClears(env: Env, ts: Typing, w: World, h: Heap, frame: Frame, e: Text, a: Loc, t: Type, typ: Type,
                       start: Start)
    requires Valid(env) && Meets(env, ts, w, h, frame, e, a, t, typ, start) && Generated(env, t).None?
    requires IsMapType(env, Under(env, typ))
    ensures Achieves(env, h, a, t, Exec(w, h, frame, Clear(e)))
  {
    assert FitsAt(env, ts, h, a, Under(env, t));
  }

  lemma NilClears(env: Env, ts: Typing, w: World, h: Heap, frame: Frame, e: Text, a: Loc, t: Type, typ: Type,
                  start: Start)
    requires Valid(env) && Meets(env, ts, w, h, frame, e, a, t, typ, start) && Generated(env, t).None?
    requires Nilable(env, Under(env, typ))
    ensures Achieves(env, h, a, t, Exec(w, h, frame, SetNil(e)))
  {
    NilableFits(env, ts, h, a, Under(env, t));
    NilLeafClears(env, h, a, t);
  }

  /** A leaf of the kind that variables with the underlying type u hold. */
  predicate IsLeafFor(env: Env, u: Type, x: Leaf) {
    && !x.Word? && (u.Star? ==> x.Pointer?)
    && (IsSliceType(env, u) ==> x.SliceHeader?) && (IsMapType(env, u) ==> x.MapHeader?)
  }

  lemma NilableFits(env: Env, ts: Typing, h: Heap, a: Loc, u: Type)
    requires Valid(env) && FitsAt(env, ts, h, a, u) && Nilable(env, u)
    ensures a in h.leaves && IsLeafFor(env, u, h.leaves[a])
  {
  }

  lemma NilLeafClears(env: Env, h: Heap, a: Loc, t: Type)
    requires Valid(env) && Generated(env, t).None? && Nilable(env, Under(env, t))
    requires a in h.leaves && IsLeafFor(env, Under(env, t), h.leaves[a])
    ensures Achieves(env, h, a, t, Returned(WithLeaf(h, a, ZeroLeaf(h.leaves[a]))))
  {
  }

  lemma BasicClears(env: Env, ts: Typing, w: World, h: Heap, frame: Frame, e: Text, a: Loc, t: Type, typ: Type,
                    start: Start)
    requires Valid(env) && Meets(env, ts, w, h, frame, e, a, t, typ, start) && Generated(env, t).None?
    requires Under(env, typ).Ident? && IsBasic(Under(env, typ).name)
    ensures Achieves(env, h, a, t, Returned(WithLeaf(h, a, Word(0))))
    ensures a in h.leaves && h.leaves[a].Word?
  {
    assert FitsAt(env, ts, h, a, Under(env, t));
  }

  /**
   * Running what is emitted for a variable of a type the generator supports
   * does not panic; if it returns it has cleared or left alone everything
   * else, and left the variable clean to every depth.
   */
  lemma {:induction false} RunClears(env: Env, ts: Typing, w: World, scope: Scope, h: Heap, frame: Frame, e: Text,
                                     a: Loc, t: Type, typ: Type, start: Start, depth: nat)
    requires Valid(env) && Meets(env, ts, w, h, frame, e, a, t, typ, start) && Fine(env, scope, t, typ, start, depth)
    ensures Achieves(env, h, a, t, Exec(w, h, frame, Emit(env, e, t, typ, depth)))
    decreases Unfoldings(depth), typ, 4
  {
    match typ
    case Paren(x) => RunClears(env, ts, w, scope, h, frame, e, a, t, x, start, depth);
    case Ident(n) =>
      if IsPredeclaredType(n) {
        PredeclaredClears(env, ts, w, scope, h, frame, e, a, t, n, start, depth);
      } else {
        NamedClears(env, ts, w, scope, h, frame, e, a, t, typ, n, start, depth);
      }
    case Index(b, _) => NamedClears(env, ts, w, scope, h, frame, e, a, t, typ, GenericName(b), start, depth);
    case Selector(_, _) => ExternalClears(env, ts, w, scope, h, frame, e, a, t, typ, start);
    case Star(x) => PointerClears(env, ts, w, scope, h, frame, e, a, t, x, start, depth);
    case _ => LiteralClears(env, ts, w, scope, h, frame, e, a, t, typ, start, depth);
  }

  lemma PredeclaredClears(env: Env, ts: Typing, w: World, scope: Scope, h: Heap, frame: Frame, e: Text, a: Loc, t: Type,
                          n: string, start: Start, depth: nat)
    requires Valid(env) && Meets(env, ts, w, h, frame, e, a, t, Ident(n), start) && IsPredeclaredType(n)
    ensures Achieves(env, h, a, t, Exec(w, h, frame, Emit(env, e, t, Ident(n), depth)))
  {
    assert n !in env.types;
    SeenAsUngenerated(env, t, Ident(n));
    if IsBasic(n) {
      BasicClears(env, ts, w, h, frame, e, a, t, Ident(n), start);
    } else {
      NilClears(env, ts, w, h, frame, e, a, t, Ident(n), start);
    }
  }

  lemma LiteralClears(env: Env, ts: Typing, w: World, scope: Scope, h: Heap, frame: Frame, e: Text, a: Loc, t: Type,
                      typ: Type, start: Start, depth: nat)
    requires Valid(env) && Meets(env, ts, w, h, frame, e, a, t, typ, start) && Fine(env, scope, t, typ, start, depth)
    requires typ.Slice? || typ.Array? || typ.Map? || typ.Struct? || typ.Interface? || typ.Other?
    ensures Achieves(env, h, a, t, Exec(w, h, frame, Emit(env, e, t, typ, depth)))
  {
    SeenAsUngenerated(env, t, typ);
    match typ
    case Slice(_) => ReslicingClears(env, ts, w, h, frame, e, a, t, typ, start);
    case Map(_, _) => ClearingClears(env, ts, w, h, frame, e, a, t, typ, start);
    case Interface(_) => NilClears(env, ts, w, h, frame, e, a, t, typ, start);
    case Other(_) => NilClears(env, ts, w, h, frame, e, a, t, typ, start);
    case _ => ZeroingClears(env, ts, h, a, t);
  }

  lemma {:induction false} PointerClears(env: Env, ts: Typing, w: World, scope: Scope, h: Heap, frame: Frame, e: Text,
                                         a: Loc, t: Type, x: Type, start: Start, depth: nat)
    requires Valid(env) && Meets(env, ts, w, h, frame, e, a, t, Star(x), start)
    requires Fine(env, scope, t, Star(x), start, depth)
    ensures Achieves(env, h, a, t, Exec(w, h, frame, Emit(env, e, t, Star(x), depth)))
    decreases Unfoldings(depth), x, 6
  {
    SeenAsUngenerated(env, t, Star(x));
    var p := if depth > 0 || e.Deref? then Group(e) else e;
    var body := Emit(env, Deref(p), x, x, depth + 1);
    assert Emit(env, e, t, Star(x), depth) == IfNotNil(p, body);
    PointerFits(env, ts, w, h, frame, e, a, t, x, start);
    if h.leaves[a].to.Some? {
      PointeeClears(env, ts, w, scope, h, frame, e, p, a, t, x, start, depth);
    }
    GuardClears(env, w, h, frame, p, body, a, t, x);
  }

  lemma PointerFits(env: Env, ts: Typing, w: World, h: Heap, frame: Frame, e: Text, a: Loc, t: Type, x: Type,
                    start: Start)
    requires Valid(env) && Meets(env, ts, w, h, frame, e, a, t, Star(x), start)
    ensures a in h.leaves && h.leaves[a].Pointer? && Under(env, t) == Star(x)
  {
    assert FitsAt(env, ts, h, a, Under(env, t));
  }

  lemma {:induction false} PointeeClears(env: Env, ts: Typing, w: World, scope: Scope, h: Heap, frame: Frame, e: Text,
                                         p: Text, a: Loc, t: Type, x: Type, start: Start, depth: nat)
    requires Valid(env) && Meets(env, ts, w, h, frame, e, a, t, Star(x), start) && p in {e, Group(e)}
    requires Fine(env, scope, x, x, StartAt(t, Star(x)), depth + 1)
    requires a in h.leaves && h.leaves[a].Pointer? && h.leaves[a].to.Some?
    ensures Achieves(env, h, h.leaves[a].to.value, x, Exec(w, h, frame, Emit(env, Deref(p), x, x, depth + 1)))
    decreases Unfoldings(depth), x, 5
  {
    MeetsPointee(env, ts, w, h, frame, e, p, a, t, x, start);
    RunClears(env, ts, w, scope, h, frame, Deref(p), h.leaves[a].to.value, x, x, StartAt(t, Star(x)), depth + 1);
  }

  /** A pointer is clean once what it leads to is. */
  lemma GuardClears(env: Env, w: World, h: Heap, frame: Frame, p: Text, body: Stmt, a: Loc, t: Type, x: Type)
    requires Valid(env) && Generated(env, t).None? && Under(env, t) == Star(x)
    requires At(h, frame, Read(p)) == Some(a) && a in h.leaves && h.leaves[a].Pointer?
    requires h.leaves[a].to.Some? ==> Achieves(env, h, h.leaves[a].to.value, x, Exec(w, h, frame, body))
    ensures Achieves(env, h, a, t, Exec(w, h, frame, IfNotNil(p, body)))
  {
    GuardRuns(w, h, frame, p, body, a);
    if h.leaves[a].to.None? {
      PointerToNothingIsClean(env, h, a, t, x);
    } else {
      PointeeClearedIsEnough(env, h, a, t, x, Exec(w, h, frame, body));
    }
  }

  /** What a pointer leads to is a variable of the type behind the star. */
  lemma MeetsPointee(env: Env, ts: Typing, w: World, h: Heap, frame: Frame, e: Text, p: Text, a: Loc, t: Type, x: Type,
                     start: Start)
    requires Valid(env) && Meets(env, ts, w, h, frame, e, a, t, Star(x), start) && p in {e, Group(e)}
    ensures a in h.leaves && h.leaves[a].Pointer? && At(h, frame, Read(p)) == Some(a)
    ensures h.leaves[a].to.Some? ==>
              Meets(env, ts, w, h, frame, Deref(p), h.leaves[a].to.value, x, x, StartAt(t, Star(x)))
  {
    assert FitsAt(env, ts, h, a, Under(env, t));
  }

  lemma GuardRuns(w: World, h: Heap, frame: Frame, p: Text, body: Stmt, a: Loc)
    requires At(h, frame, Read(p)) == Some(a) && a in h.leaves && h.leaves[a].Pointer?
    ensures Exec(w, h, frame, IfNotNil(p, body))
         == if h.leaves[a].to.None? then Returned(h) else Exec(w, h, frame, body)
    ensures At(h, frame, Read(Deref(p))) == h.leaves[a].to
  {
  }

  lemma PointerToNothingIsClean(env: Env, h: Heap, a: Loc, t: Type, x: Type)
    requires Valid(env) && Generated(env, t).None? && Under(env, t) == Star(x) && a in h.leaves
    requires h.leaves[a] == Pointer(None)
    ensures Achieves(env, h, a, t, Returned(h))
  {
  }

  /** The pointer itself may be cleared on the way; then it points to nothing. */
  lemma PointeeClearedIsEnough(env: Env, h: Heap, a: Loc, t: Type, x: Type, after: Outcome)
    requires Valid(env) && Generated(env, t).None? && Under(env, t) == Star(x)
    requires a in h.leaves && h.leaves[a].Pointer? && h.leaves[a].to.Some?
    requires Achieves(env, h, h.leaves[a].to.value, x, after)
    ensures Achieves(env, h, a, t, after)
  {
    if after.Returned? {
      assert LeafToward(h.leaves[a], after.heap.leaves[a]);
      forall n: nat
        ensures Clean(env, after.heap, a, t, n)
      {
        assert n > 0 ==> Clean(env, after.heap, h.leaves[a].to.value, x, n - 1);
      }
    }
  }

  lemma ExternalClears(env: Env, ts: Typing, w: World, scope: Scope, h: Heap, frame: Frame, e: Text, a: Loc, t: Type,
                       typ: Type, start: Start)
    requires Valid(env) && typ.Selector? && Meets(env, ts, w, h, frame, e, a, t, typ, start)
    requires Fine(env, scope, t, typ, start, 0)
    ensures Achieves(env, h, a, t, Exec(w, h, frame, EmitExternal(env, e, t, typ)))
  {
    SeenAsUngenerated(env, t, typ);
    var x := env.external(typ.pkg, typ.name);
    if x.lookup.NotImported? {
      UnknownClears(env, ts, w, h, frame, e, a, t, typ, start);
    } else if x.reset {
      OwnCallClears(env, ts, w, h, frame, e, a, t);
    } else if x.kind.IsMap? {
      ClearingClears(env, ts, w, h, frame, e, a, t, typ, start);
    } else if x.kind.IsSlice? {
      ReslicingClears(env, ts, w, h, frame, e, a, t, typ, start);
    } else {
      ZeroingClears(env, ts, h, a, t);
    }
  }

  lemma {:induction false} NamedClears(env: Env, ts: Typing, w: World, scope: Scope, h: Heap, frame: Frame, e: Text,
                                       a: Loc, t: Type, typ: Type, name: string, start: Start, depth: nat)
    requires Valid(env) && Meets(env, ts, w, h, frame, e, a, t, typ, start)
    requires FineName(env, scope, t, typ, name, start, depth)
    requires typ == Ident(name) || (typ.Index? && GenericName(typ.base) == name)
    ensures Achieves(env, h, a, t, Exec(w, h, frame, EmitNamed(env, e, t, typ, name, depth)))
    decreases Unfoldings(depth), typ, 3
  {
    if name in env.types && env.types[name].HasMethod() {
      OwnCallClears(env, ts, w, h, frame, e, a, t);
      assert EmitNamed(env, e, t, typ, name, depth) == CallReset(e, t);
    } else {
      SeenAsUngenerated(env, t, typ);
      if name !in env.types || env.types[name].alias || env.types[name].params != [] {
        assert EmitNamed(env, e, t, typ, name, depth) == EmitUnknown(e, typ);
        UnknownClears(env, ts, w, h, frame, e, a, t, typ, start);
      } else {
        PlainClears(env, ts, w, scope, h, frame, e, a, t, typ, name, start, depth);
      }
    }
  }

  lemma {:induction false} PlainClears(env: Env, ts: Typing, w: World, scope: Scope, h: Heap, frame: Frame, e: Text,
                                       a: Loc, t: Type, typ: Type, name: string, start: Start, depth: nat)
    requires Valid(env) && Meets(env, ts, w, h, frame, e, a, t, typ, start)
    requires FineName(env, scope, t, typ, name, start, depth)
    requires typ == Ident(name) || (typ.Index? && GenericName(typ.base) == name)
    requires name in env.types && env.types[name].IsPlain() && Generated(env, t).None?
    ensures Achieves(env, h, a, t, Exec(w, h, frame, EmitNamed(env, e, t, typ, name, depth)))
    decreases Unfoldings(depth), typ, 2
  {
    var def := env.types[name].def;
    if def.Struct? {
      assert Exec(w, h, frame, EmitNamed(env, e, t, typ, name, depth)) == Returned(Zeroed(h, a));
      ZeroingClears(env, ts, h, a, t);
    } else if IsUnfolded(def) {
      UnfoldedClears(env, ts, w, scope, h, frame, e, a, t, name, start, depth);
    } else {
      assert EmitNamed(env, e, t, typ, name, depth) == SetNil(e);
      NilClears(env, ts, w, h, frame, e, a, t, typ, start);
    }
  }

  /** The variable is one of what its name is defined by, too. */
  lemma MeetsDefinition(env: Env, ts: Typing, w: World, h: Heap, frame: Frame, e: Text, a: Loc, t: Type, name: string,
                        start: Start)
    requires Valid(env) && Meets(env, ts, w, h, frame, e, a, t, Ident(name), start) && IsUnfoldedName(env, name)
    ensures Meets(env, ts, w, h, frame, e, a, t, env.types[name].def, start)
  {
    StripChangesNothing(env, t);
  }

  lemma {:induction false} UnfoldedClears(env: Env, ts: Typing, w: World, scope: Scope, h: Heap, frame: Frame, e: Text,
                                          a: Loc, t: Type, name: string, start: Start, depth: nat)
    requires Valid(env) && Meets(env, ts, w, h, frame, e, a, t, Ident(name), start)
    requires FineName(env, scope, t, Ident(name), name, start, depth) && IsUnfoldedName(env, name)
    requires Generated(env, t).None?
    ensures Achieves(env, h, a, t, Exec(w, h, frame, EmitNamed(env, e, t, Ident(name), name, depth)))
    decreases Unfoldings(depth), Ident(name), 1
  {
    if IsFollowed(env, name, depth) {
      FollowedIsDefined(env, e, t, Ident(name), name, depth);
      FollowedClears(env, ts, w, scope, h, frame, e, a, t, name, start, depth);
    } else {
      PlainIsDefined(env, e, t, Ident(name), name, depth);
      FoldedClears(env, ts, w, h, frame, e, a, t, name, start, depth);
    }
  }

  lemma {:induction false} FollowedClears(env: Env, ts: Typing, w: World, scope: Scope, h: Heap, frame: Frame, e: Text,
                                          a: Loc, t: Type, name: string, start: Start, depth: nat)
    requires Valid(env) && Meets(env, ts, w, h, frame, e, a, t, Ident(name), start) && IsFollowed(env, name, depth)
    requires Fine(env, scope, t, env.types[name].def, start, depth + 1)
    ensures Achieves(env, h, a, t, Exec(w, h, frame, Emit(env, e, t, env.types[name].def, depth + 1)))
    decreases Unfoldings(depth), Ident(name), 0
  {
    MeetsDefinition(env, ts, w, h, frame, e, a, t, name, start);
    RunClears(env, ts, w, scope, h, frame, e, a, t, env.types[name].def, start, depth + 1);
  }

  /** The names that are looked through no further. */
  lemma FoldedClears(env: Env, ts: Typing, w: World, h: Heap, frame: Frame, e: Text, a: Loc, t: Type, name: string,
                     start: Start, depth: nat)
    requires Valid(env) && Meets(env, ts, w, h, frame, e, a, t, Ident(name), start)
    requires IsUnfoldedName(env, name) && Generated(env, t).None?
    requires depth > MAX_RESET_DEPTH || (env.types[name].def.Ident? && IsBasic(env.types[name].def.name))
    ensures Achieves(env, h, a, t, Exec(w, h, frame, EmitUnfolded(env, e, t, Ident(name), name, depth)))
  {
    if depth > MAX_RESET_DEPTH {
      UnknownClears(env, ts, w, h, frame, e, a, t, Ident(name), start);
    } else {
      BasicClears(env, ts, w, h, frame, e, a, t, Ident(name), start);
    }
  }

  /**
   * A slice or map field is emptied in place: its elements' storage stays, and
   * whoever shares the map sees it empty.
   */
  lemma StorageIsKept(env: Env, ts: Typing, w: World, scope: Scope, h: Heap, frame: Frame, e: Text, a: Loc, t: Type,
                      typ: Type, start: Start, depth: nat)
    requires Valid(env) && Meets(env, ts, w, h, frame, e, a, t, typ, start) && Fine(env, scope, t, typ, start, depth)
    requires typ.Slice? || typ.Map?
    ensures var after := Exec(w, h, frame, Emit(env, e, t, typ, depth));
            && after.Returned? && a in h.leaves && a in after.heap.leaves
            && (typ.Slice? ==> h.leaves[a].SliceHeader?
                               && after.heap == WithLeaf(h, a, SliceHeader(h.leaves[a].elems, 0, h.leaves[a].cap)))
            && (typ.Map? ==> h.leaves[a].MapHeader? && after.heap.leaves == h.leaves
                             && (h.leaves[a].at.Some? ==> after.heap.maps == h.maps[h.leaves[a].at.value := {}]))
  {
    assert FitsAt(env, ts, h, a, Under(env, t));
  }
}
