/** Which fields a generated method resets: those the struct declares, each once and in source order. */
module ResetFields {
  import opened ResetTypes
  import opened ResetEmit

  /** Name at of declaration decl. */
  datatype Place = Place(decl: nat, at: nat)

  predicate IsBefore(p: Place, q: Place) {
    p.decl < q.decl || (p.decl == q.decl && p.at < q.at)
  }

  /** T, pkg.T, T[...] or pkg.T[...] for the name T. */
  predicate IsTypeNamed(t: Type, n: string) {
    match t
    case Ident(m) => m == n
    case Selector(_, m) => m == n
    case Index(Ident(m), _) => m == n
    case Index(Selector(_, m), _) => m == n
    case _ => false
  }

  /** An embedded field goes by the name of its type, or of the type it is a pointer to. */
  predicate GoesBy(t: Type, n: string) {
    n != "" && (IsTypeNamed(t, n) || (t.Star? && IsTypeNamed(t.elem, n)))
  }

  /** Name at of a declaration gives the struct the field f; a field named _ cannot be referred to. */
  predicate Declares(d: FieldDecl, at: nat, f: FieldVar) {
    match d
    case Listed(names, t) => at < |names| && names[at] != "_" && f == FieldVar(names[at], t)
    case Embedded(t) => at == 0 && GoesBy(t, f.name) && f.typ == t
  }

  ghost predicate DeclaresAt(decls: seq<FieldDecl>, p: Place, f: FieldVar) {
    p.decl < |decls| && Declares(decls[p.decl], p.at, f)
  }

  /** What is instantiated is a plain or a qualified name. */
  predicate IsWritten(d: FieldDecl) {
    d.Embedded? ==>
      && (d.typ.Index? ==> d.typ.base.Ident? || d.typ.base.Selector?)
      && (d.typ.Star? && d.typ.elem.Index? ==> d.typ.elem.base.Ident? || d.typ.elem.base.Selector?)
  }

  ghost predicate AreWritten(decls: seq<FieldDecl>) {
    forall d | d in decls :: IsWritten(d)
  }

  /** Field k comes from place k, the places are in source order, and nothing that is declared is missing. */
  ghost predicate IsListing(decls: seq<FieldDecl>, fields: seq<FieldVar>, places: seq<Place>) {
    AreFrom(decls, fields, places) && IsSorted(places) && AreAll(decls, places)
  }

  ghost predicate AreFrom(decls: seq<FieldDecl>, fields: seq<FieldVar>, places: seq<Place>) {
    |places| == |fields| && forall k | 0 <= k < |fields| :: DeclaresAt(decls, places[k], fields[k])
  }

  ghost predicate IsSorted(places: seq<Place>) {
    forall k, l | 0 <= k < l < |places| :: IsBefore(places[k], places[l])
  }

  ghost predicate AreAll(decls: seq<FieldDecl>, places: seq<Place>) {
    forall p, f | DeclaresAt(decls, p, f) :: p in places
  }

  /** A base goes by its own name, and only what has a name is listed by one. */
  lemma EmbeddedNameExactly(t: Type, n: string)
    requires IsWritten(Embedded(t)) && n != ""
    ensures EmbeddedName(t) == n <==> GoesBy(t, n)
  {
    var x := if t.Star? then t.elem else t;
    if x.Index? {
      assert EmbeddedName(x.base) == x.base.name;
    }
  }

  /** The name of an embedded field, form by form. */
  lemma EmbeddedNamePerForm(n: string, pkg: string, args: Opaque)
    ensures EmbeddedName(Ident(n)) == n && EmbeddedName(Star(Ident(n))) == n
    ensures EmbeddedName(Selector(pkg, n)) == n && EmbeddedName(Star(Selector(pkg, n))) == n
    ensures EmbeddedName(Index(Ident(n), args)) == n && EmbeddedName(Star(Index(Ident(n), args))) == n
    ensures EmbeddedName(Index(Selector(pkg, n), args)) == n
    ensures EmbeddedName(Star(Index(Selector(pkg, n), args))) == n
  {
    assert EmbeddedName(Ident(n)) == n && EmbeddedName(Selector(pkg, n)) == n;
  }

  /** One place gives one field. */
  lemma DeclaredOnce(d: FieldDecl, at: nat, f: FieldVar, g: FieldVar)
    requires IsWritten(d) && Declares(d, at, f) && Declares(d, at, g)
    ensures f == g
  {
  }

  /** Names 0 to n of a list, as far as they can be referred to. */
  ghost predicate AreListed(names: seq<string>, t: Type, n: nat, fields: seq<FieldVar>, ats: seq<nat>)
    requires n <= |names|
  {
    && |ats| == |fields|
    && (forall k | 0 <= k < |ats| :: ats[k] < n && names[ats[k]] != "_" && fields[k] == FieldVar(names[ats[k]], t))
    && (forall k, l | 0 <= k < l < |ats| :: ats[k] < ats[l])
    && (forall i: nat | i < n && names[i] != "_" :: i in ats)
  }

  lemma {:induction false} ListedInOrder(names: seq<string>, t: Type, n: nat) returns (ats: seq<nat>)
    requires n <= |names|
    ensures AreListed(names, t, n, ListedFields(names[..n], t), ats)
  {
    ats := [];
    if n > 0 {
      ats := ListedInOrder(names, t, n - 1);
      assert names[..n][..n - 1] == names[..n - 1] && names[..n][n - 1] == names[n - 1];
      if names[n - 1] != "_" {
        OneMoreName(names, t, n - 1, ListedFields(names[..n - 1], t), ats);
        ats := ats + [n - 1];
      }
    }
  }

  lemma OneMoreName(names: seq<string>, t: Type, n: nat, fields: seq<FieldVar>, ats: seq<nat>)
    requires n < |names| && names[n] != "_" && AreListed(names, t, n, fields, ats)
    ensures AreListed(names, t, n + 1, fields + [FieldVar(names[n], t)], ats + [n])
  {
    assert (ats + [n])[|ats|] == n;
  }

  /** The fields of the last declaration, as places. */
  function PlacesOf(decl: nat, ats: seq<nat>): (places: seq<Place>)
    ensures |places| == |ats| && forall k | 0 <= k < |ats| :: places[k] == Place(decl, ats[k])
  {
    seq(|ats|, k requires 0 <= k < |ats| => Place(decl, ats[k]))
  }

  lemma OneInOrder(decls: seq<FieldDecl>, n: nat) returns (places: seq<Place>)
    requires n < |decls| && IsWritten(decls[n])
    ensures AreFrom(decls, FieldsOfOne(decls[n]), places) && IsSorted(places)
    ensures forall p | p in places :: p.decl == n
    ensures forall p, f | DeclaresAt(decls, p, f) && p.decl == n :: p in places
  {
    match decls[n]
    case Listed(names, t) =>
      var ats := ListedInOrder(names, t, |names|);
      assert names[..|names|] == names;
      places := PlacesOf(n, ats);
      forall p, f | DeclaresAt(decls, p, f) && p.decl == n
        ensures p in places
      {
        var k :| 0 <= k < |ats| && ats[k] == p.at;
        assert places[k] == p;
      }
    case Embedded(t) =>
      var name := EmbeddedName(t);
      places := if name == "" then [] else [Place(n, 0)];
      if name != "" {
        EmbeddedNameExactly(t, name);
      }
      forall p, f | DeclaresAt(decls, p, f) && p.decl == n
        ensures p in places
      {
        EmbeddedNameExactly(t, f.name);
        assert places[0] == p;
      }
  }

  /**
   * A method resets the fields its struct declares: those listed by a name
   * that can be referred to and those embedded under the name of their type,
   * each of them once, in the order of the source.
   */
  lemma FieldsInSourceOrder(decls: seq<FieldDecl>) returns (places: seq<Place>)
    requires AreWritten(decls)
    ensures IsListing(decls, FieldsOf(decls), places)
  {
    places := FirstInOrder(decls, |decls|);
    assert decls[..|decls|] == decls;
    forall p, f | DeclaresAt(decls, p, f)
      ensures p in places
    {
    }
  }

  lemma {:induction false} FirstInOrder(decls: seq<FieldDecl>, n: nat) returns (places: seq<Place>)
    requires n <= |decls| && AreWritten(decls)
    ensures AreFrom(decls, FieldsOf(decls[..n]), places) && IsSorted(places)
    ensures forall p | p in places :: p.decl < n
    ensures forall p, f | DeclaresAt(decls, p, f) && p.decl < n :: p in places
  {
    places := [];
    if n > 0 {
      var before := FirstInOrder(decls, n - 1);
      var last := OneInOrder(decls, n - 1);
      assert decls[..n][..n - 1] == decls[..n - 1] && decls[..n][n - 1] == decls[n - 1];
      MorePlaces(decls, n - 1, FieldsOf(decls[..n - 1]), before, FieldsOfOne(decls[n - 1]), last);
      places := before + last;
    }
  }

  lemma MorePlaces(decls: seq<FieldDecl>, n: nat, fields: seq<FieldVar>, before: seq<Place>, more: seq<FieldVar>,
               last: seq<Place>)
    requires AreFrom(decls, fields, before) && IsSorted(before) && AreFrom(decls, more, last) && IsSorted(last)
    requires (forall p | p in before :: p.decl < n) && (forall p | p in last :: p.decl == n)
    ensures AreFrom(decls, fields + more, before + last) && IsSorted(before + last)
  {
    var m := |before|;
    forall k | 0 <= k < |fields + more|
      ensures DeclaresAt(decls, (before + last)[k], (fields + more)[k])
    {
      if k < m {
        assert DeclaresAt(decls, before[k], fields[k]);
      } else {
        assert DeclaresAt(decls, last[k - m], more[k - m]);
      }
    }
    forall k, l | 0 <= k < l < |before + last|
      ensures IsBefore((before + last)[k], (before + last)[l])
    {
      if l < m {
        assert IsBefore(before[k], before[l]);
      } else if k < m {
        assert before[k] in before && last[l - m] in last;
      } else {
        assert IsBefore(last[k - m], last[l - m]);
      }
    }
  }

  /** A struct has a field listed exactly when one of its declarations declares it. */
  lemma ListedExactlyWhenDeclared(decls: seq<FieldDecl>, f: FieldVar)
    requires AreWritten(decls)
    ensures f in FieldsOf(decls) <==> exists p :: DeclaresAt(decls, p, f)
  {
    var places := FieldsInSourceOrder(decls);
    if f in FieldsOf(decls) {
      var k :| 0 <= k < |FieldsOf(decls)| && FieldsOf(decls)[k] == f;
      assert DeclaresAt(decls, places[k], f);
    }
    if p :| DeclaresAt(decls, p, f) {
      var k :| 0 <= k < |places| && places[k] == p;
      assert decls[p.decl] in decls;
      DeclaredOnce(decls[p.decl], p.at, f, FieldsOf(decls)[k]);
    }
  }
}
