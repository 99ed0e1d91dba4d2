/** Virtual tables in the canonical MIR text. */
module MirVtables {

  // The virtual tables of a module in the canonical text. They are written in the order of their
  // traits and types, and their methods in the order of their names, so the text forgets the order
  // that the compiler met them in, and it determines everything else.

  import opened Decimal
  import opened Quoting
  import opened MirTree
  import opened MirNodes
  import opened MirHeads
  import opened MirPrint
  import opened MirWriter
  import opened MirImitation
  import opened StableSort
  import opened Multisets

  // ----- nodes ----------------------------------------------------------------------------------

  function TableHead(t: VTable): string {
    "trait=" + (Quoted(t.first) + (" type=" + (Quoted(t.second) + (" methods=" + Dec(|t.item|)))))
  }

  function MethodHead(m: Method): string { "name=" + (Quoted(m.first) + (" function=" + Quoted(m.second))) }

  function MethodNode(at: string, m: Method): Node { Node(at, MethodHead(m), SigNodes(m.item)) }

  function MethodNodes(at: string, ms: seq<Method>): (ns: seq<Node>)
    ensures |ns| == |ms|
  {
    seq(|ms|, i requires 0 <= i < |ms| => MethodNode(Indexed(at, i), ms[i]))
  }

  /** A table whose methods are in the order in which they are written. */
  function TableNode(at: string, t: VTable): Node { Node(at, TableHead(t), MethodNodes(at + ".method", t.item)) }

  function TableNodes(at: string, ts: seq<VTable>): (ns: seq<Node>)
    ensures |ns| == |ts|
  {
    seq(|ts|, i requires 0 <= i < |ts| => TableNode(Indexed(at, i), ts[i]))
  }

  /** Each table with its methods sorted. */
  function Inner(ts: seq<VTable>): (r: seq<VTable>)
    ensures |r| == |ts|
  {
    seq(|ts|, i requires 0 <= i < |ts| => ts[i].(item := Sort(ts[i].item)))
  }

  /** The tables as written: sorted, their methods sorted. */
  function Canon(ts: seq<VTable>): seq<VTable> { Inner(Sort(ts)) }

  function TablesText(ts: seq<VTable>): string { KidsText(TableNodes("vtable", Canon(ts))) }

  // ----- single lines -----------------------------------------------------------------------------

  lemma {:induction false} QuotedClean(s: string)
    ensures OneLine(Quoted(s))
  {
    QuotedLeaf("", s, s);
  }

  lemma {:induction false} TableHeadClean(t: VTable)
    ensures OneLine(TableHead(t)) && !FieldHead(TableHead(t))
  {
    QuotedClean(t.first);
    QuotedClean(t.second);
    NumberLeaf("", |t.item|, |t.item|);
    hide Quoted, Dec;
    var x := " methods=" + Dec(|t.item|);
    assert OneLine(x);
    var y := " type=" + (Quoted(t.second) + x);
    assert OneLine(y);
  }

  lemma {:induction false} MethodClean(at: string, m: Method)
    requires OneLine(at)
    ensures Clean(MethodNode(at, m))
  {
    QuotedClean(m.first);
    QuotedClean(m.second);
    SigClean(m.item);
    hide Quoted, SigNodes;
    assert OneLine(" function=" + Quoted(m.second));
  }

  lemma {:induction false} TableClean(at: string, t: VTable)
    requires OneLine(at)
    ensures Clean(TableNode(at, t))
  {
    hide MethodNode, TableHead;
    TableHeadClean(t);
    forall i | 0 <= i < |t.item| ensures Clean(MethodNode(Indexed(at + ".method", i), t.item[i])) {
      MethodClean(Indexed(at + ".method", i), t.item[i]);
    }
  }

  lemma {:induction false} TablesClean(at: string, ts: seq<VTable>)
    requires OneLine(at)
    ensures AllClean(TableNodes(at, ts))
  {
    hide TableNode, Clean;
    forall i | 0 <= i < |ts| ensures Clean(TableNode(Indexed(at, i), ts[i])) {
      TableClean(Indexed(at, i), ts[i]);
    }
  }

  // ----- the lines, spelled out ---------------------------------------------------------------------

  /** The lines of a table and of its methods, word for word. */
  lemma {:induction false} TableLines(at: string, t: VTable, m: Method)
    ensures Lines(TableNode(at, t))
         == [at + " "
             + ("trait=" + (Quoted(t.first) + (" type=" + (Quoted(t.second) + (" methods=" + Dec(|t.item|))))))]
            + LinesOf(seq(|t.item|, i requires 0 <= i < |t.item| =>
                MethodNode(at + ".method" + "[" + Dec(i) + "]", t.item[i])))
    ensures Lines(MethodNode(at, m))
         == [at + " " + ("name=" + (Quoted(m.first) + (" function=" + Quoted(m.second))))] + LinesOf(SigNodes(m.item))
  {
    hide LinesOf, MethodNodes, SigNodes, Dec, Quoted;
    MethodsNamed(at, t);
  }

  lemma {:induction false} MethodsNamed(at: string, t: VTable)
    ensures MethodNodes(at + ".method", t.item) == seq(|t.item|, i requires 0 <= i < |t.item| =>
              MethodNode(at + ".method" + "[" + Dec(i) + "]", t.item[i]))
  {
    hide MethodNode, Dec;
  }

  // ----- what the nodes determine -----------------------------------------------------------------

  lemma {:induction false} TableHeadDetermines(t: VTable, u: VTable)
    requires TableHead(t) == TableHead(u)
    ensures t.first == u.first && t.second == u.second && |t.item| == |u.item|
  {
    var x, y := " methods=" + Dec(|t.item|), " methods=" + Dec(|u.item|);
    var p, q := " type=" + (Quoted(t.second) + x), " type=" + (Quoted(u.second) + y);
    hide Quoted, Dec;
    Cancel("trait=", Quoted(t.first) + p, Quoted(u.first) + q);
    QuotedPrefixFree(t.first, p, u.first, q);
    Cancel(" type=", Quoted(t.second) + x, Quoted(u.second) + y);
    QuotedPrefixFree(t.second, x, u.second, y);
    Cancel(" methods=", Dec(|t.item|), Dec(|u.item|));
    DecInjective(|t.item|, |u.item|);
  }

  lemma {:induction false} MethodHeadDetermines(m: Method, n: Method)
    requires MethodHead(m) == MethodHead(n)
    ensures m.first == n.first && m.second == n.second
  {
    var x, y := " function=" + Quoted(m.second), " function=" + Quoted(n.second);
    hide Quoted;
    Cancel("name=", Quoted(m.first) + x, Quoted(n.first) + y);
    QuotedPrefixFree(m.first, x, n.first, y);
    Cancel(" function=", Quoted(m.second), Quoted(n.second));
    QuotedInjective(m.second, n.second);
  }

  lemma {:induction false} MethodDetermined(at: string, m: Method, n: Method)
    ensures Aligned(MethodNode(at, m), MethodNode(at, n))
    ensures MethodNode(at, m) == MethodNode(at, n) ==> m == n
  {
    hide MethodHead, SigNodes;
    SigDetermined(m.item, n.item);
    if MethodHead(m) == MethodHead(n) {
      MethodHeadDetermines(m, n);
    }
  }

  lemma {:induction false} TableDetermined(at: string, t: VTable, u: VTable)
    ensures Aligned(TableNode(at, t), TableNode(at, u))
    ensures TableNode(at, t) == TableNode(at, u) ==> t == u
  {
    hide TableHead, MethodNode;
    if TableHead(t) == TableHead(u) {
      TableHeadDetermines(t, u);
      var ns, ms := MethodNodes(at + ".method", t.item), MethodNodes(at + ".method", u.item);
      forall i | 0 <= i < |t.item|
        ensures Aligned(ns[i], ms[i]) && (ns[i] == ms[i] ==> t.item[i] == u.item[i])
      {
        MethodDetermined(Indexed(at + ".method", i), t.item[i], u.item[i]);
      }
      if ns == ms {
        assert t.item == u.item;
      }
    }
  }

  lemma {:induction false} TablesDetermined(at: string, ts: seq<VTable>, us: seq<VTable>)
    requires |ts| == |us|
    ensures AllAligned(TableNodes(at, ts), TableNodes(at, us))
    ensures TableNodes(at, ts) == TableNodes(at, us) ==> ts == us
  {
    hide TableNode, Aligned;
    var ns, ms := TableNodes(at, ts), TableNodes(at, us);
    forall i | 0 <= i < |ts| ensures Aligned(ns[i], ms[i]) && (ns[i] == ms[i] ==> ts[i] == us[i]) {
      TableDetermined(Indexed(at, i), ts[i], us[i]);
    }
  }

  // ----- sorting and writing ------------------------------------------------------------------------

  lemma {:induction false} SortLength<T>(s: seq<Keyed<T>>)
    ensures |Sort(s)| == |s|
  {
    SortKeeps(s);
    SameLength(Sort(s), s);
  }

  /** The numbers that the second line of a module's text tells. */
  datatype Counts = Counts(
    functions: nat, globals: nat, types: nat, strings: nat, externals: nat, vtables: nat, uniforms: nat)

  function CountsLine(c: Counts): string {
    "counts functions=" + (Dec(c.functions) + (" globals=" + (Dec(c.globals) + (" types=" + (Dec(c.types)
      + (" strings=" + (Dec(c.strings) + (" externals=" + (Dec(c.externals) + (" vtables=" + (Dec(c.vtables)
      + (" uniforms=" + Dec(c.uniforms)))))))))))))
  }

  /** The line, word for word. */
  lemma {:induction false} CountsSpelled(c: Counts)
    ensures CountsLine(c)
         == "counts functions=" + Dec(c.functions) + " globals=" + Dec(c.globals) + " types=" + Dec(c.types)
            + " strings=" + Dec(c.strings) + " externals=" + Dec(c.externals) + " vtables=" + Dec(c.vtables)
            + " uniforms=" + Dec(c.uniforms)
  {
    var t12 := " uniforms=" + Dec(c.uniforms);
    var t11 := Dec(c.vtables) + t12;
    var t10 := " vtables=" + t11;
    var t9 := Dec(c.externals) + t10;
    var t8 := " externals=" + t9;
    var t7 := Dec(c.strings) + t8;
    var t6 := " strings=" + t7;
    var t5 := Dec(c.types) + t6;
    var t4 := " types=" + t5;
    var t3 := Dec(c.globals) + t4;
    var t2 := " globals=" + t3;
    var t1 := Dec(c.functions) + t2;
    var a1 := "counts functions=" + Dec(c.functions);
    var a2 := a1 + " globals=";
    var a3 := a2 + Dec(c.globals);
    var a4 := a3 + " types=";
    var a5 := a4 + Dec(c.types);
    var a6 := a5 + " strings=";
    var a7 := a6 + Dec(c.strings);
    var a8 := a7 + " externals=";
    var a9 := a8 + Dec(c.externals);
    var a10 := a9 + " vtables=";
    var a11 := a10 + Dec(c.vtables);
    assert CountsLine(c) == "counts functions=" + t1;
    hide Dec, CountsLine;
    Together3("counts functions=", Dec(c.functions), t2);
    Together3(a1, " globals=", t3);
    Together3(a2, Dec(c.globals), t4);
    Together3(a3, " types=", t5);
    Together3(a4, Dec(c.types), t6);
    Together3(a5, " strings=", t7);
    Together3(a6, Dec(c.strings), t8);
    Together3(a7, " externals=", t9);
    Together3(a8, Dec(c.externals), t10);
    Together3(a9, " vtables=", t11);
    Together3(a10, Dec(c.vtables), t12);
    Together3(a11, " uniforms=", Dec(c.uniforms));
  }

  lemma {:induction false} Together3(a: string, b: string, x: string)
    ensures a + (b + x) == a + b + x
  {
  }

  /** One `name=number` and what follows it, which is another of them. */
  lemma {:induction false} NextCount(tag: string, n: nat, p: string, m: nat, q: string)
    requires tag + (Dec(n) + p) == tag + (Dec(m) + q) && Ends(p) && Ends(q)
    ensures n == m && p == q
  {
    Cancel(tag, Dec(n) + p, Dec(m) + q);
    NumberThen(n, p, m, q);
  }

  /** The line tells every count. */
  lemma {:induction false} CountsDetermined(c: Counts, e: Counts)
    ensures CountsLine(c) == CountsLine(e) <==> c == e
  {
    if CountsLine(c) == CountsLine(e) {
      var u, v := " uniforms=" + Dec(c.uniforms), " uniforms=" + Dec(e.uniforms);
      var t, w := " vtables=" + (Dec(c.vtables) + u), " vtables=" + (Dec(e.vtables) + v);
      var x, y := " externals=" + (Dec(c.externals) + t), " externals=" + (Dec(e.externals) + w);
      var f, g := " strings=" + (Dec(c.strings) + x), " strings=" + (Dec(e.strings) + y);
      var k, l := " types=" + (Dec(c.types) + f), " types=" + (Dec(e.types) + g);
      var p, q := " globals=" + (Dec(c.globals) + k), " globals=" + (Dec(e.globals) + l);
      hide Dec;
      NextCount("counts functions=", c.functions, p, e.functions, q);
      NextCount(" globals=", c.globals, k, e.globals, l);
      NextCount(" types=", c.types, f, e.types, g);
      NextCount(" strings=", c.strings, x, e.strings, y);
      NextCount(" externals=", c.externals, t, e.externals, w);
      NextCount(" vtables=", c.vtables, u, e.vtables, v);
      Cancel(" uniforms=", Dec(c.uniforms), Dec(e.uniforms));
      DecInjective(c.uniforms, e.uniforms);
    }
  }

  lemma {:induction false} TextOfTables(ts: seq<VTable>)
    ensures TablesText(ts) == KidsText(TableNodes("vtable", Canon(ts)))
  {
  }

  lemma {:induction false} CanonIsClean(ts: seq<VTable>)
    ensures |Canon(ts)| == |ts|
    ensures AllShaped(TableNodes("vtable", Canon(ts))) && AllOwn(TableNodes("vtable", Canon(ts)))
  {
    SortLength(ts);
    TablesClean("vtable", Canon(ts));
    hide TableNodes, Sort;
    AllCleanIsShaped(TableNodes("vtable", Canon(ts)));
  }

  lemma {:induction false} SameNumberOfTables(ts: seq<VTable>, x: string, us: seq<VTable>, y: string)
    requires |ts| == |us|
    ensures TablesText(ts) + x == TablesText(us) + y <==> Canon(ts) == Canon(us) && x == y
  {
    hide *;
    CanonIsClean(ts);
    CanonIsClean(us);
    TablesDetermined("vtable", Canon(ts), Canon(us));
    TextOfTables(ts);
    TextOfTables(us);
    if TablesText(ts) + x == TablesText(us) + y {
      KidsTwoSided(TableNodes("vtable", Canon(ts)), x, TableNodes("vtable", Canon(us)), y);
    }
  }

  /** The counts line and the tables of two modules, each followed by any text: equal text exactly
      for equal counts, tables that are the same once sorted, and equal rests. */
  lemma {:induction false} VtableTextDetermines(
      c: Counts, ts: seq<VTable>, x: string, e: Counts, us: seq<VTable>, y: string)
    requires c.vtables == |ts| && e.vtables == |us|
    ensures CountsLine(c) == CountsLine(e) && TablesText(ts) + x == TablesText(us) + y
       <==> c == e && Canon(ts) == Canon(us) && x == y
  {
    hide CountsLine, TablesText, Canon;
    CountsDetermined(c, e);
    SortedAsMany(ts, us);
    if |ts| == |us| {
      SameNumberOfTables(ts, x, us, y);
    }
  }

  lemma {:induction false} SortedAsMany(ts: seq<VTable>, us: seq<VTable>)
    ensures Canon(ts) == Canon(us) ==> |ts| == |us|
  {
    SortLength(ts);
    SortLength(us);
  }

  lemma {:induction false} InnerCons(t: VTable, ts: seq<VTable>)
    ensures Inner([t] + ts) == [t.(item := Sort(t.item))] + Inner(ts)
  {
  }

  lemma {:induction false} InsertInner(t: VTable, ts: seq<VTable>)
    ensures Inner(Insert(t, ts)) == Insert(t.(item := Sort(t.item)), Inner(ts))
  {
    hide KeyLess, Sort, Inner;
    if ts == [] {
      InnerCons(t, []);
      InnerNone();
      assert [t] + [] == [t];
    } else {
      InnerCons(ts[0], ts[1..]);
      assert ts == [ts[0]] + ts[1..];
      KeyOnly(ts[0], t);
      if KeyLess(ts[0], t) {
        InsertInner(t, ts[1..]);
        InnerCons(ts[0], Insert(t, ts[1..]));
      } else {
        InnerCons(t, ts);
      }
    }
  }

  lemma {:induction false} InnerNone()
    ensures Inner([]) == []
  {
  }

  lemma {:induction false} KeyOnly(a: VTable, b: VTable)
    ensures KeyLess(a, b) <==> KeyLess(a.(item := Sort(a.item)), b.(item := Sort(b.item)))
  {
  }

  /** The two sorts do not disturb each other. */
  lemma {:induction false} CanonIsSort(ts: seq<VTable>)
    ensures Canon(ts) == Sort(Inner(ts))
  {
    hide Inner, Insert;
    if ts == [] {
      InnerNone();
    } else {
      InnerCons(ts[0], ts[1..]);
      assert ts == [ts[0]] + ts[1..];
      CanonIsSort(ts[1..]);
      InsertInner(ts[0], Sort(ts[1..]));
    }
  }

  /** When no two different tables have one trait and type, the text names the tables as a bag: it
      forgets the order of tables, and the order of methods with different names, and nothing else. */
  lemma {:induction false} TextNamesTheTables(
      c: Counts, ts: seq<VTable>, x: string, e: Counts, us: seq<VTable>, y: string)
    requires c.vtables == |ts| && e.vtables == |us|
    requires KeysName(multiset(Inner(ts)))
    ensures CountsLine(c) == CountsLine(e) && TablesText(ts) + x == TablesText(us) + y
       <==> c == e && multiset(Inner(ts)) == multiset(Inner(us)) && x == y
  {
    VtableTextDetermines(c, ts, x, e, us, y);
    CanonIsSort(ts);
    CanonIsSort(us);
    SortKeeps(Inner(ts));
    SortKeeps(Inner(us));
    SortForgetsOrder(Inner(ts));
    hide TablesText, CountsLine, Text, Inner, Sort, Canon, KeysName;
  }

  // ----- the writer -----------------------------------------------------------------------------------

  /** The tables as `write_mir_module` writes them: sorted, and each one's methods sorted. */
  method WriteVtables(output: Output, vtables: seq<VTable>)
    modifies output
    ensures output.text == old(output.text) + TablesText(vtables)
  {
    hide NodeText, KidsText, TableNode, Inner;
    var sorted := Sort(vtables);
    ghost var before, ns := output.text, TableNodes("vtable", Canon(vtables));
    NoKids();
    assert before + "" == before;
    for i := 0 to |sorted|
      invariant output.text == before + KidsText(ns[..i])
    {
      KidsTextSnoc(ns[..i], ns[i]);
      assert ns[..i + 1] == ns[..i] + [ns[i]];
      MirWriter.Regroup(before, KidsText(ns[..i]), NodeText(ns[i]));
      InnerAt(sorted, i);
      WriteTable(output, Indexed("vtable", i), sorted[i]);
    }
    assert ns[..|sorted|] == ns;
  }

  lemma {:induction false} InnerAt(ts: seq<VTable>, i: nat)
    requires i < |ts|
    ensures Inner(ts)[i] == ts[i].(item := Sort(ts[i].item))
  {
  }

  method WriteTable(output: Output, at: string, t: VTable)
    modifies output
    ensures output.text == old(output.text) + NodeText(TableNode(at, t.(item := Sort(t.item))))
  {
    hide NodeText, KidsText, MethodNode, TableHead;
    SortLength(t.item);
    SameHead(t);
    var methods := Sort(t.item);
    ghost var n := TableNode(at, t.(item := methods));
    LineThenKids(n);
    NoKids();
    var head := TableHead(t);
    output.PushLine(at + " " + head);
    ghost var before, ns := output.text, MethodNodes(at + ".method", methods);
    for j := 0 to |methods|
      invariant output.text == before + KidsText(ns[..j])
    {
      KidsTextSnoc(ns[..j], ns[j]);
      assert ns[..j + 1] == ns[..j] + [ns[j]];
      MirWriter.Regroup(before, KidsText(ns[..j]), NodeText(ns[j]));
      WriteMethod(output, Indexed(at + ".method", j), methods[j]);
    }
    assert ns[..|methods|] == ns;
    MirWriter.Regroup(old(output.text), at + " " + head + [NEWLINE], KidsText(n.kids));
  }

  lemma {:induction false} SameHead(t: VTable)
    requires |Sort(t.item)| == |t.item|
    ensures TableHead(t.(item := Sort(t.item))) == TableHead(t)
  {
  }

  method WriteMethod(output: Output, at: string, m: Method)
    modifies output
    ensures output.text == old(output.text) + NodeText(MethodNode(at, m))
  {
    hide NodeText, KidsText, MethodHead;
    ghost var n := MethodNode(at, m);
    LineThenKids(n);
    var head := MethodHead(m);
    output.PushLine(at + " " + head);
    WriteFnSig(output, m.item);
    MirWriter.Regroup(old(output.text), at + " " + head + [NEWLINE], KidsText(n.kids));
  }
}
