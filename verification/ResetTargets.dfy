/** Which structs ask for a Reset method, and which methods are found to be one: exactly the written forms. */
module ResetTargets {
  import opened ResetTypes
  import opened ResetCollect

  predicate IsBlank(s: string) {
    forall c | c in s :: IsSpace(c)
  }

  /** The text is the marker with white space around it. */
  ghost predicate IsPadded(s: string, m: string) {
    exists a, b :: IsBlank(a) && IsBlank(b) && s == a + m + b
  }

  predicate IsBare(m: string) {
    m != "" && !IsSpace(m[0]) && !IsSpace(m[|m| - 1])
  }

  lemma {:induction false} LeftTrimmed(s: string) returns (a: string)
    ensures IsBlank(a) && s == a + TrimLeft(s)
  {
    a := "";
    if s != "" && IsSpace(s[0]) {
      var rest := LeftTrimmed(s[1..]);
      a := [s[0]] + rest;
    }
  }

  lemma {:induction false} RightTrimmed(s: string) returns (b: string)
    ensures IsBlank(b) && s == TrimRight(s) + b
  {
    b := "";
    if s != "" && IsSpace(s[|s| - 1]) {
      var rest := RightTrimmed(s[..|s| - 1]);
      b := rest + [s[|s| - 1]];
      assert s == s[..|s| - 1] + [s[|s| - 1]];
    }
  }

  lemma {:induction false} TrimLeftOf(a: string, x: string)
    requires IsBlank(a) && (x == "" || !IsSpace(x[0]))
    ensures TrimLeft(a + x) == x
  {
    if a != "" {
      assert (a + x)[1..] == a[1..] + x && a[0] in a;
      TrimLeftOf(a[1..], x);
    } else {
      assert a + x == x;
    }
  }

  lemma {:induction false} TrimRightOf(x: string, b: string)
    requires IsBlank(b) && (x == "" || !IsSpace(x[|x| - 1]))
    ensures TrimRight(x + b) == x
  {
    if b != "" {
      var n := |b| - 1;
      assert (x + b)[..|x + b| - 1] == x + b[..n] && b[n] in b;
      TrimRightOf(x, b[..n]);
    } else {
      assert x + b == x;
    }
  }

  /** Trimming leaves m exactly of m with white space around it. */
  lemma TrimmedExactlyWhenPadded(s: string, m: string)
    requires IsBare(m)
    ensures TrimRight(TrimLeft(s)) == m <==> IsPadded(s, m)
  {
    if TrimRight(TrimLeft(s)) == m {
      var a := LeftTrimmed(s);
      var b := RightTrimmed(TrimLeft(s));
      assert s == a + m + b;
    }
    if a, b :| IsBlank(a) && IsBlank(b) && s == a + m + b {
      assert s == a + (m + b);
      TrimLeftOf(a, m + b);
      TrimRightOf(m, b);
    }
  }

  /** A comment line is the marker exactly when nothing else stands in it but white space and the two slashes. */
  lemma MarkerExactlyWhen(text: string)
    ensures IsMarker(text) <==>
            if "//" <= text then IsPadded(text[2..], "generate:reset") else IsPadded(text, "generate:reset")
  {
    TrimmedExactlyWhenPadded(TrimPrefix(text, "//"), MARKER);
  }

  /** A receiver counts for the name n exactly if it is n, *n or one of these instantiated. */
  lemma ReceiverExactlyWhen(t: Type, n: string)
    requires n != ""
    ensures RecvTypeName(t) == n <==>
              || t == Ident(n) || t == Star(Ident(n))
              || (t.Index? && t.base == Ident(n)) || (t.Star? && t.elem.Index? && t.elem.base == Ident(n))
  {
  }

  /**
   * A specification with a comment of its own is asked for by that comment
   * alone; one without, by the comment on the declaration if it stands there
   * alone; and only structs are.
   */
  lemma AsksExactlyWhen(d: GoDecl, i: nat)
    requires d.Types? && i < |d.specs|
    ensures d.specs[i].doc.Some? ==> (AsksForReset(d, i) <==> d.specs[i].def.Struct? && IsMarked(d.specs[i].doc))
    ensures d.specs[i].doc.None? && |d.specs| == 1 ==>
              (AsksForReset(d, i) <==> d.specs[i].def.Struct? && IsMarked(d.doc))
    ensures d.specs[i].doc.None? && |d.specs| > 1 ==> !AsksForReset(d, i)
  {
  }

  // ---------------------------------------------------------------- the targets of a package

  /** Specification i of the declaration asks for a method. */
  ghost predicate Asks(d: GoDecl, i: int, s: Spec) {
    AsksForReset(d, i) && d.specs[i] == s
  }

  ghost predicate IsAskedAt(decls: seq<GoDecl>, k: int, i: int, s: Spec) {
    0 <= k < |decls| && Asks(decls[k], i, s)
  }

  ghost predicate IsAsked(decls: seq<GoDecl>, s: Spec) {
    exists k, i :: IsAskedAt(decls, k, i, s)
  }

  lemma {:induction false} AskingExactly(d: GoDecl, n: nat, s: Spec)
    requires d.Types? && n <= |d.specs|
    ensures s in Asking(d, n) <==> exists i :: 0 <= i < n && Asks(d, i, s)
  {
    if n > 0 {
      AskingExactly(d, n - 1, s);
      assert s in Asking(d, n) <==> s in Asking(d, n - 1) || Asks(d, n - 1, s);
    }
  }

  lemma AskedInFront(decls: seq<GoDecl>, d: GoDecl, s: Spec)
    requires decls != [] && d == decls[|decls| - 1]
    ensures IsAsked(decls, s) <==> IsAsked(decls[..|decls| - 1], s) || exists i :: Asks(d, i, s)
  {
    var n := |decls| - 1;
    if i :| Asks(d, i, s) {
      assert IsAskedAt(decls, n, i, s);
    }
    if k, i :| IsAskedAt(decls[..n], k, i, s) {
      assert IsAskedAt(decls, k, i, s);
    }
    if k, i :| IsAskedAt(decls, k, i, s) {
      assert if k < n then IsAskedAt(decls[..n], k, i, s) else Asks(d, i, s);
    }
  }

  /** The targets are the specifications that ask for a method. */
  lemma {:induction false} TargetsAreAsked(decls: seq<GoDecl>, s: Spec)
    ensures s in Targets(decls) <==> IsAsked(decls, s)
  {
    if decls != [] {
      var n := |decls| - 1;
      var d := decls[n];
      TargetsAreAsked(decls[..n], s);
      AskedInFront(decls, d, s);
      if d.Types? {
        AskingExactly(d, |d.specs|, s);
      }
    } else {
      assert !IsAsked(decls, s);
    }
  }

  /** Each target is collected with the file it is declared in. */
  lemma {:induction false} TargetsKeepTheirFiles(files: seq<File>, t: Target)
    ensures t in TargetsOf(files)
            <==> exists k :: 0 <= k < |files| && t.file == files[k].name && t.spec in Targets(files[k].decls)
  {
    if files != [] {
      var n := |files| - 1;
      var f := files[n];
      TargetsKeepTheirFiles(files[..n], t);
      var specs := Targets(f.decls);
      assert t in InFile(specs, f.name) <==> t.file == f.name && t.spec in specs by {
        if t.file == f.name && t.spec in specs {
          var i :| 0 <= i < |specs| && specs[i] == t.spec;
          assert InFile(specs, f.name)[i] == t;
        }
      }
      assert t in TargetsOf(files) <==> t in TargetsOf(files[..n]) || t in InFile(specs, f.name);
      assert forall k | 0 <= k < n :: files[..n][k] == files[k];
    }
  }
}
