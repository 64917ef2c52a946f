/**
 * What the generator writes for the packages its own tests generate code for,
 * up to the indentation gofmt adds.
 */
module ResetGolden {
  import opened ResetTypes
  import opened ResetEmit
  import opened ResetGenerator

  /** The text for one field. */
  function TextOf(env: Env, recv: string, f: FieldVar): string {
    Show(recv, EmitField(env, f))
  }

  function Braced(fields: seq<FieldDecl>, text: string): Type {
    Struct(fields, Opaque(text, {}, {}, {}))
  }

  function Defined(def: Type): Decl {
    Decl(def, false, [], false, false, NoReset)
  }

  const PLAIN := Braced([Listed(["n"], Ident("int"))], "struct {\n\tn int\n}")

  /** The declarations of cmd/reset/testdata/fields that the fields of its largest struct are of. */
  const FIELDS := Env(
    map["Status" := Defined(Ident("int")), "Tags" := Defined(Slice(Ident("string"))),
        "Labels" := Defined(Map(Ident("string"), Ident("string"))), "Self" := Defined(Star(Ident("Self"))),
        "Plain" := Defined(PLAIN), "Inner" := Defined(PLAIN).(marked := true),
        "Custom" := Defined(PLAIN).(recorded := true, own := ResetMethod.Plain)],
    (p: string, n: string) =>
      if n == "Header" then External(Found, false, IsMap, true)
      else if n == "Duration" then External(Found, false, IsValue, true)
      else External(Found, true, IsValue, true),
    {"Status", "Tags", "Labels", "Self", "Plain", "Inner", "Custom", "Fields", "Grouped", "Ungrouped", "testOnly"}, {},
    {"bytes", "nh", "strings", "time"}, (t: Type) => false, map[])

  lemma BoolText()
    ensures TextOf(FIELDS, "f", FieldVar("b", Ident("bool"))) == "f.b = false\n"
  {
  }

  lemma StringText()
    ensures TextOf(FIELDS, "f", FieldVar("s", Ident("string"))) == "f.s = \"\"\n"
  {
  }

  lemma IntText()
    ensures TextOf(FIELDS, "f", FieldVar("i", Ident("int"))) == "f.i = 0\n"
  {
  }

  lemma ComplexText()
    ensures TextOf(FIELDS, "f", FieldVar("c", Ident("complex128"))) == "f.c = 0\n"
  {
  }

  lemma AnyText()
    ensures TextOf(FIELDS, "f", FieldVar("a", Ident("any"))) == "f.a = nil\n"
  {
  }

  lemma ErrorText()
    ensures TextOf(FIELDS, "f", FieldVar("err", Ident("error"))) == "f.err = nil\n"
  {
  }

  lemma StatusText()
    ensures TextOf(FIELDS, "f", FieldVar("status", Ident("Status"))) == "f.status = Status(0)\n"
  {
  }

  lemma TagsText()
    ensures TextOf(FIELDS, "f", FieldVar("tags", Ident("Tags"))) == "f.tags = f.tags[:0]\n"
  {
  }

  lemma LabelsText()
    ensures TextOf(FIELDS, "f", FieldVar("labels", Ident("Labels"))) == "clear(f.labels)\n"
  {
  }

  lemma PlainText()
    ensures TextOf(FIELDS, "f", FieldVar("plain", Ident("Plain"))) == "f.plain = Plain{}\n"
  {
  }

  lemma InnerText()
    ensures TextOf(FIELDS, "f", FieldVar("inner", Ident("Inner"))) == "f.inner.Reset()\n"
  {
  }

  lemma CustomText()
    ensures TextOf(FIELDS, "f", FieldVar("custom", Ident("Custom"))) == "f.custom.Reset()\n"
  {
  }

  lemma SliceText()
    ensures TextOf(FIELDS, "f", FieldVar("slice", Slice(Ident("int")))) == "f.slice = f.slice[:0]\n"
  {
  }

  lemma MapText()
    ensures TextOf(FIELDS, "f", FieldVar("m", Map(Ident("string"), Ident("int")))) == "clear(f.m)\n"
  {
  }

  lemma ArrayText()
    ensures TextOf(FIELDS, "f", FieldVar("arr", Array(Opaque("3", {}, {}, {}), Ident("int")))) == "f.arr = [3]int{}\n"
  {
  }

  lemma PointerText()
    ensures TextOf(FIELDS, "f", FieldVar("ptr", Star(Ident("int"))))
         == "if " + "f.ptr" + " != nil {\n" + "*f.ptr = 0\n" + "}\n"
  {
    assert EmitField(FIELDS, FieldVar("ptr", Star(Ident("int"))))
        == IfNotNil(Field("ptr"), SetZero(Deref(Field("ptr")), "0"));
    assert Show("f", SetZero(Deref(Field("ptr")), "0")) == "*f.ptr = 0\n";
  }

  lemma DoublePointerText()
    ensures TextOf(FIELDS, "f", FieldVar("pptr", Star(Star(Ident("string")))))
         == "if " + "f.pptr" + " != nil {\n"
            + ("if " + "(*f.pptr)" + " != nil {\n" + "*(*f.pptr) = \"\"\n" + "}\n") + "}\n"
  {
    var p := Field("pptr");
    var q := Group(Deref(p));
    assert Emit(FIELDS, Deref(p), Star(Ident("string")), Star(Ident("string")), 1)
        == IfNotNil(q, Emit(FIELDS, Deref(q), Ident("string"), Ident("string"), 2));
    assert ShowText("f", q) == "(*f.pptr)";
    assert Show("f", SetZero(Deref(q), Zero("string"))) == "*(*f.pptr) = \"\"\n";
  }

  lemma PlainPointerText()
    ensures TextOf(FIELDS, "f", FieldVar("plainP", Star(Ident("Plain"))))
         == "if " + "f.plainP" + " != nil {\n" + "*f.plainP = Plain{}\n" + "}\n"
  {
    var p, t := Field("plainP"), Ident("Plain");
    assert Emit(FIELDS, Deref(p), t, t, 1) == EmitNamed(FIELDS, Deref(p), t, t, "Plain", 1);
    PlainIsDefined(FIELDS, Deref(p), t, t, "Plain", 1);
    assert EmitField(FIELDS, FieldVar("plainP", Star(t))) == IfNotNil(p, SetEmpty(Deref(p), t));
    assert Show("f", SetEmpty(Deref(p), t)) == "*f.plainP = Plain{}\n";
  }

  lemma InnerPointerText()
    ensures TextOf(FIELDS, "f", FieldVar("innerP", Star(Ident("Inner"))))
         == "if " + "f.innerP" + " != nil {\n" + "f.innerP.Reset()\n" + "}\n"
  {
    var p, t := Field("innerP"), Ident("Inner");
    assert Emit(FIELDS, Deref(p), t, t, 1) == EmitNamed(FIELDS, Deref(p), t, t, "Inner", 1);
    assert EmitField(FIELDS, FieldVar("innerP", Star(t))) == IfNotNil(p, CallReset(Deref(p), t));
    assert Show("f", CallReset(Deref(p), t)) == "f.innerP.Reset()\n";
  }

  lemma StructText()
    ensures TextOf(FIELDS, "f", FieldVar("anon", Braced([Listed(["x"], Ident("int"))], "struct{ x int }")))
         == "f.anon = struct{ x int }{}\n"
  {
    assert ShowText("f", Field("anon")) == "f.anon";
  }

  lemma FuncText()
    ensures TextOf(FIELDS, "f", FieldVar("fn", Other(Opaque("func()", {}, {}, {})))) == "f.fn = nil\n"
  {
  }

  lemma BufferText()
    ensures TextOf(FIELDS, "f", FieldVar("buf", Selector("bytes", "Buffer"))) == "f.buf.Reset()\n"
  {
  }

  lemma HeaderText()
    ensures TextOf(FIELDS, "f", FieldVar("header", Selector("nh", "Header"))) == "clear(f.header)\n"
  {
  }

  lemma DurationText()
    ensures TextOf(FIELDS, "f", FieldVar("timeout", Selector("time", "Duration")))
         == "f.timeout = *new(time.Duration)\n"
  {
    assert ShowText("f", Field("timeout")) == "f.timeout";
    assert ShowType(Selector("time", "Duration")) == "time.Duration";
  }

  /** The declarations of cmd/reset/testdata/generic, seen from the type parameters of Pair. */
  const GENERIC := Env(
    map["Box" := Decl(Braced([Listed(["v"], Ident("T"))], "struct {\n\tv T\n}"), false, ["T"], false, false, NoReset)],
    (p: string, n: string) => External(NotImported, false, IsValue, true), {"Box", "Pair"}, {}, {},
    (t: Type) => false, map["Box" := 0])

  /** A variable of a type parameter. */
  lemma KeyText()
    ensures TextOf(GENERIC, "p", FieldVar("key", Ident("K")))
         == "if resetter, ok := any(" + "&p.key" + ").(interface{ Reset() }); ok {\nresetter.Reset()\n} else {\n"
            + "p.key = *new(K)\n" + "}\n"
  {
    assert EmitField(GENERIC, FieldVar("key", Ident("K"))) == EmitUnknown(Field("key"), Ident("K"));
    assert ShowText("p", Field("key")) == "p.key" && ShowAddress("p", Field("key")) == "&p.key";
    UnknownShows("p", Field("key"), Ident("K"));
    assert "p.key" + " = *new(" + "K" + ")\n" == "p.key = *new(K)\n";
  }

  /** An instance of a generic type. */
  lemma BoxText()
    ensures TextOf(GENERIC, "p", FieldVar("box", Index(Ident("Box"), Opaque("V", {"V"}, {}, {}))))
         == "if resetter, ok := any(" + "&p.box" + ").(interface{ Reset() }); ok {\nresetter.Reset()\n} else {\n"
            + "p.box = *new(Box[V])\n" + "}\n"
  {
    var t := Index(Ident("Box"), Opaque("V", {"V"}, {}, {}));
    assert EmitField(GENERIC, FieldVar("box", t)) == EmitUnknown(Field("box"), t);
    assert ShowText("p", Field("box")) == "p.box" && ShowAddress("p", Field("box")) == "&p.box";
    assert ShowType(t) == "Box[V]";
    UnknownShows("p", Field("box"), t);
    assert "p.box" + " = *new(" + "Box[V]" + ")\n" == "p.box = *new(Box[V])\n";
  }

  lemma PairHeader()
    ensures Header("Pair", ["K", "V"])
         == "// Reset resets " + "Pair" + " to its initial state.\n" + "func (" + "p" + " *" + "Pair[K, V]"
            + ") Reset() {\n" + "if " + "p" + " == nil {\nreturn\n}\n\n"
  {
    assert ["K", "V"][..1] == ["K"];
    assert Joined(["K"]) == "K";
    assert Joined(["K", "V"]) == "K" + ", " + "V" == "K, V";
    assert "Pair" + "[" + "K, V" + "]" == "Pair[K, V]";
  }

  const GROUPED := [Listed(["values"], Slice(Ident("float64"))), Listed(["total"], Ident("float64"))]

  lemma GroupedFields()
    ensures FieldsOf(GROUPED) == [FieldVar("values", Slice(Ident("float64"))), FieldVar("total", Ident("float64"))]
  {
    assert GROUPED[..1] == [GROUPED[0]] && GROUPED[..1][..0] == [];
    assert FieldsOfOne(GROUPED[0]) == [FieldVar("values", Slice(Ident("float64")))] by {
      assert ["values"][..0] == [];
    }
    assert FieldsOfOne(GROUPED[1]) == [FieldVar("total", Ident("float64"))] by {
      assert ["total"][..0] == [];
    }
    assert FieldsOf(GROUPED[..1]) == FieldsOfOne(GROUPED[0]);
  }

  /** A whole method. */
  lemma GroupedText()
    ensures Header("Grouped", []) + ShowAll("g", EmitFields(FIELDS, FieldsOf(GROUPED))) + "}\n\n"
         == "// Reset resets " + "Grouped" + " to its initial state.\n" + "func (" + "g" + " *" + "Grouped"
            + ") Reset() {\n" + "if " + "g" + " == nil {\nreturn\n}\n\n"
            + ("g.values = g.values[:0]\n" + "g.total = 0\n") + "}\n\n"
  {
    GroupedFields();
    GroupedBody();
  }

  lemma GroupedBody()
    ensures var fields := [FieldVar("values", Slice(Ident("float64"))), FieldVar("total", Ident("float64"))];
            ShowAll("g", EmitFields(FIELDS, fields)) == "g.values = g.values[:0]\n" + "g.total = 0\n"
  {
    var values, total := FieldVar("values", Slice(Ident("float64"))), FieldVar("total", Ident("float64"));
    ValuesText();
    TotalText();
    OneMoreField(FIELDS, "g", "", [], values);
    OneMoreField(FIELDS, "g", "", [values], total);
    assert [] + [values] == [values] && [values] + [total] == [values, total];
  }

  lemma ValuesText()
    ensures TextOf(FIELDS, "g", FieldVar("values", Slice(Ident("float64")))) == "g.values = g.values[:0]\n"
  {
  }

  lemma TotalText()
    ensures TextOf(FIELDS, "g", FieldVar("total", Ident("float64"))) == "g.total = 0\n"
  {
  }
}
