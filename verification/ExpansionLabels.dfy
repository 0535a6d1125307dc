/** Local labels over a whole expansion: where every label of the result was written, and that labels of
    different calls stay apart to the end. */
module ExpansionLabels {
  import opened Wrappers
  import opened Regs
  import opened Macros
  import opened MacroProofs
  import opened LocalLabels
  import opened Substitution

  // ---- where the lines come from ----

  /** A line with the call it was expanded for (0 at top level), as written in the definition or the source,
      and with the arguments in place. */
  datatype Origin = Origin(owner: nat, written: string, source: string) {
    function Line(): string {
      if owner == 0 then source else Rename(source, Suffix(owner))
    }
  }

  function LinesOf(os: seq<Origin>): seq<string> {
    seq(|os|, i requires 0 <= i < |os| => os[i].Line())
  }

  function Top(lines: seq<string>): seq<Origin> {
    seq(|lines|, i requires 0 <= i < |lines| => Origin(0, lines[i], lines[i]))
  }

  /** The lines of a call. */
  function Owned(k: LineKind, macros: Table, owner: nat): seq<Origin>
    requires !k.Plain? && k.name in macros && Instance(k, macros).Some?
  {
    var written, body := macros[k.name].body, Instance(k, macros).value;
    seq(|body|, i requires 0 <= i < |body| => Origin(owner, written[i], body[i]))
  }

  /** Full expansion that remembers where each line came from. */
  function TraceExpand(os: seq<Origin>, f: Forest, macros: Table): Option<seq<Origin>>
    decreases f
  {
    match f
    case Nil => if os == [] then Some([]) else None
    case Leaf(rest) =>
      if os == [] || IsCall(os[0].Line(), macros) then None
      else (match TraceExpand(os[1..], rest, macros) case None => None case Some(r) => Some([os[0]] + r))
    case Node(n, kids, rest) =>
      if os == [] || !IsCall(os[0].Line(), macros) then None
      else
        var k := ParseLine(os[0].Line());
        if Instance(k, macros).None? then None
        else
          var a, b := TraceExpand(Owned(k, macros, n), kids, macros), TraceExpand(os[1..], rest, macros);
          if a.None? || b.None? then None else Some(a.value + b.value)
  }

  lemma JoinLines(a: seq<Origin>, b: seq<Origin>)
    ensures LinesOf(a + b) == LinesOf(a) + LinesOf(b)
  {
    hide Rename;
  }

  lemma FirstLine(os: seq<Origin>)
    requires os != []
    ensures LinesOf(os) != [] && LinesOf(os)[0] == os[0].Line() && LinesOf(os)[1..] == LinesOf(os[1..])
    ensures LinesOf([os[0]]) == [os[0].Line()]
  {
    hide Rename;
  }

  lemma OwnedLines(k: LineKind, macros: Table, n: nat)
    requires n != 0 && !k.Plain? && k.name in macros && Instance(k, macros).Some?
    ensures LinesOf(Owned(k, macros, n)) == RenameBody(Instance(k, macros).value, Suffix(n))
  {
    hide Rename, Suffix, Instance;
  }

  /** Forgetting the origins gives the plain expansion. */
  lemma {:induction false} TraceIsExpansion(os: seq<Origin>, f: Forest, macros: Table)
    requires 0 !in Numbers(f)
    ensures FullExpand(LinesOf(os), f, macros) ==
            (match TraceExpand(os, f, macros) case None => None case Some(r) => Some(LinesOf(r)))
    decreases f
  {
    hide IsCall, Instance, ParseLine, Rename, Suffix, LinesOf, Owned, RenameBody;
    if os == [] {
      NoLines();
    } else if !f.Nil? {
      FirstLine(os);
      TraceIsExpansion(os[1..], f.rest, macros);
      var b := TraceExpand(os[1..], f.rest, macros);
      if f.Leaf? {
        if b.Some? {
          JoinLines([os[0]], b.value);
        }
      } else if IsCall(os[0].Line(), macros) {
        var k := ParseLine(os[0].Line());
        CallName(os[0].Line(), macros);
        if Instance(k, macros).None? { return; }
        OwnedLines(k, macros, f.num);
        TraceIsExpansion(Owned(k, macros, f.num), f.kids, macros);
        var a := TraceExpand(Owned(k, macros, f.num), f.kids, macros);
        if a.Some? && b.Some? {
          JoinLines(a.value, b.value);
        }
      }
    } else {
      FirstLine(os);
    }
  }

  lemma NoLines()
    ensures LinesOf([]) == []
  {
  }

  lemma TopLines(lines: seq<string>)
    ensures LinesOf(Top(lines)) == lines
  {
  }

  /** A property that holds of the given lines and of the lines of every call holds of the result. */
  ghost predicate CallsHave(p: Origin -> bool, os: seq<Origin>, f: Forest, macros: Table)
    decreases f
  {
    match f
    case Nil => true
    case Leaf(rest) => os != [] ==> CallsHave(p, os[1..], rest, macros)
    case Node(n, kids, rest) =>
      os != [] && IsCall(os[0].Line(), macros) && Instance(ParseLine(os[0].Line()), macros).Some? ==>
        var called := Owned(ParseLine(os[0].Line()), macros, n);
        (forall o <- called :: p(o)) && CallsHave(p, called, kids, macros) && CallsHave(p, os[1..], rest, macros)
  }

  lemma {:induction false} ResultHas(p: Origin -> bool, os: seq<Origin>, f: Forest, macros: Table)
    requires (forall o <- os :: p(o)) && CallsHave(p, os, f, macros) && TraceExpand(os, f, macros).Some?
    ensures forall o <- TraceExpand(os, f, macros).value :: p(o)
    decreases f
  {
    hide IsCall, Instance, ParseLine, Rename, Suffix, Owned;
    if !f.Nil? {
      ResultHas(p, os[1..], f.rest, macros);
      if f.Node? {
        CallName(os[0].Line(), macros);
        ResultHas(p, Owned(ParseLine(os[0].Line()), macros, f.num), f.kids, macros);
      }
    }
  }

  /** The owners of the result are call numbers of the forest, or owners of the input. */
  lemma {:induction false} OwnersAreCalls(os: seq<Origin>, f: Forest, macros: Table, o: Origin)
    requires TraceExpand(os, f, macros).Some? && o in TraceExpand(os, f, macros).value
    ensures o.owner in Numbers(f) || exists p <- os :: p.owner == o.owner
    decreases f
  {
    hide IsCall, Instance, ParseLine, Rename, Suffix;
    if f.Leaf? {
      if o != os[0] {
        OwnersAreCalls(os[1..], f.rest, macros, o);
      }
    } else if f.Node? {
      CallName(os[0].Line(), macros);
      var called := Owned(ParseLine(os[0].Line()), macros, f.num);
      if o in TraceExpand(called, f.kids, macros).value {
        OwnersAreCalls(called, f.kids, macros, o);
      } else {
        OwnersAreCalls(os[1..], f.rest, macros, o);
      }
    }
  }

  // ---- labels as written ----

  /** The arguments of a call hold no `~@` and touch no label text. */
  predicate CallCalm(k: LineKind, macros: Table)
    requires !k.Plain? && k.name in macros
  {
    k.WithArgs? && |k.vals| >= |macros[k.name].params| ==>
      var m := macros[k.name];
      var b := Bindings(m.params, k.vals);
      Harmless(b) && forall s <- m.body :: CalmLine(s, b)
  }

  /** Every call of the expansion is calm. */
  ghost predicate AllCalm(os: seq<Origin>, f: Forest, macros: Table)
    decreases f
  {
    match f
    case Nil => true
    case Leaf(rest) => os != [] ==> AllCalm(os[1..], rest, macros)
    case Node(n, kids, rest) =>
      os != [] && IsCall(os[0].Line(), macros) && Instance(ParseLine(os[0].Line()), macros).Some? ==>
        var k := ParseLine(os[0].Line());
        CallCalm(k, macros) && AllCalm(Owned(k, macros, n), kids, macros) && AllCalm(os[1..], rest, macros)
  }

  /** The labels of the line with its arguments are those it was written with. */
  predicate AsWritten(o: Origin) {
    Locals(o.source) == Locals(o.written)
  }

  lemma CallAsWritten(k: LineKind, macros: Table, n: nat)
    requires !k.Plain? && k.name in macros && Instance(k, macros).Some? && CallCalm(k, macros)
    ensures forall o <- Owned(k, macros, n) :: AsWritten(o)
  {
    hide Locals, CalmLine, Bindings, Substitute;
    var m := macros[k.name];
    var called := Owned(k, macros, n);
    forall i | 0 <= i < |called|
      ensures AsWritten(called[i])
    {
      if k.WithArgs? {
        assert CalmLine(m.body[i], Bindings(m.params, k.vals));
        SubstitutedLabelsIff(m.body[i], Bindings(m.params, k.vals));
      }
    }
  }

  lemma {:induction false} CalmAsWritten(os: seq<Origin>, f: Forest, macros: Table)
    requires AllCalm(os, f, macros)
    ensures CallsHave(AsWritten, os, f, macros)
    decreases f
  {
    hide IsCall, Instance, ParseLine, Rename, Suffix, Owned, CallCalm, AsWritten;
    if os != [] && !f.Nil? {
      if f.Leaf? {
        CalmAsWritten(os[1..], f.rest, macros);
      } else if IsCall(os[0].Line(), macros) {
        var k := ParseLine(os[0].Line());
        CallName(os[0].Line(), macros);
        if Instance(k, macros).Some? {
          CallAsWritten(k, macros, f.num);
          CalmAsWritten(Owned(k, macros, f.num), f.kids, macros);
          CalmAsWritten(os[1..], f.rest, macros);
        }
      }
    }
  }

  // ---- labels stay apart ----

  /** A name that a renamed label could be mistaken for. */
  ghost predicate LooksRenamed(x: string) {
    exists a: string, n: nat :: x == a + Suffix(n)
  }

  /** Top-level names do not look renamed. */
  ghost predicate PlainNames(lines: seq<string>) {
    forall i, a | 0 <= i < |lines| && 0 <= a < |Locals(lines[i])| :: !LooksRenamed(Locals(lines[i])[a])
  }

  /** The label an occurrence ends up with. */
  function Labelled(owner: nat, x: string): string {
    if owner == 0 then x else x + Suffix(owner)
  }

  lemma LabelsOfLine(o: Origin)
    ensures |Locals(o.Line())| == |Locals(o.source)|
    ensures forall a | 0 <= a < |Locals(o.source)| :: Locals(o.Line())[a] == Labelled(o.owner, Locals(o.source)[a])
  {
    hide Suffix, Locals;
    if o.owner != 0 {
      SuffixIsWord(o.owner);
      RenamedLocals(o.source, Suffix(o.owner));
    }
  }

  lemma LabelledApart(m: nat, x: string, n: nat, y: string)
    requires (m == 0 ==> !LooksRenamed(x)) && (n == 0 ==> !LooksRenamed(y))
    ensures Labelled(m, x) == Labelled(n, y) <==> m == n && x == y
  {
    hide Suffix;
    if m != 0 && n != 0 && x + Suffix(m) == y + Suffix(n) {
      SuffixInjective(x, m, y, n);
    }
  }

  /** Two label occurrences of a result, as they are and as they were written. */
  ghost predicate Apart(o: Origin, p: Origin) {
    && |Locals(o.Line())| == |Locals(o.written)| && |Locals(p.Line())| == |Locals(p.written)|
    && forall a, b | 0 <= a < |Locals(o.written)| && 0 <= b < |Locals(p.written)| ::
         (Locals(o.Line())[a] == Locals(p.Line())[b] <==>
            o.owner == p.owner && Locals(o.written)[a] == Locals(p.written)[b])
  }

  lemma OriginsApart(o: Origin, p: Origin)
    requires AsWritten(o) && AsWritten(p)
    requires o.owner == 0 ==> PlainNames([o.written])
    requires p.owner == 0 ==> PlainNames([p.written])
    ensures Apart(o, p)
  {
    hide Locals, LooksRenamed, Labelled;
    LabelsOfLine(o);
    LabelsOfLine(p);
    var x, y := Locals(o.written), Locals(p.written);
    forall a, b | 0 <= a < |x| && 0 <= b < |y|
      ensures Locals(o.Line())[a] == Locals(p.Line())[b] <==> o.owner == p.owner && x[a] == y[b]
    {
      assert o.owner == 0 ==> !LooksRenamed(Locals([o.written][0])[a]);
      assert p.owner == 0 ==> !LooksRenamed(Locals([p.written][0])[b]);
      LabelledApart(o.owner, x[a], p.owner, y[b]);
    }
  }

  /** Top-level lines of the result are lines of the source, as written. */
  predicate FromTop(lines: seq<string>, o: Origin) {
    o.owner == 0 ==> o.written == o.source && o.written in lines
  }

  lemma {:induction false} TopOwners(lines: seq<string>, os: seq<Origin>, f: Forest, macros: Table)
    requires 0 !in Numbers(f) && TraceExpand(os, f, macros).Some? && forall o <- os :: FromTop(lines, o)
    ensures forall o <- TraceExpand(os, f, macros).value :: FromTop(lines, o)
    decreases f
  {
    hide IsCall, Instance, ParseLine, Rename, Suffix;
    if !f.Nil? {
      TopOwners(lines, os[1..], f.rest, macros);
      if f.Node? {
        CallName(os[0].Line(), macros);
        TopOwners(lines, Owned(ParseLine(os[0].Line()), macros, f.num), f.kids, macros);
      }
    }
  }

  /** A successful expansion of a whole source, traced: the lines of the trace are the result, and every call
      of the trace has its own number. */
  lemma ExpansionTraced(source: seq<string>) returns (f: Forest, r: seq<Origin>)
    requires Expand(source).Success?
    ensures ParseDefs(source, 1).Success?
    ensures var (macros, lines) := ParseDefs(source, 1).value;
            && TraceExpand(Top(lines), f, macros) == Some(r) && LinesOf(r) == Expand(source).value
            && Distinct(f) && 0 !in Numbers(f) && forall o <- r :: FromTop(lines, o)
  {
    hide Expand, ParseDefs, FullExpand, TraceExpand, Distinct, Numbers;
    f := ExpansionIsRecursive(source);
    var (macros, lines) := ParseDefs(source, 1).value;
    TopLines(lines);
    TraceIsExpansion(Top(lines), f, macros);
    r := TraceExpand(Top(lines), f, macros).value;
    TopOwners(lines, Top(lines), f, macros);
  }

  /** When no argument carries `~@` or touches label text, and no top-level name looks renamed: two label
      occurrences of the expanded source are the same label exactly when they come from the same call and
      were written the same in its definition. References find their definitions, and different calls, even of
      the same macro, never collide. */
  lemma LabelsStayApart(source: seq<string>) returns (f: Forest, r: seq<Origin>)
    requires Expand(source).Success?
    ensures ParseDefs(source, 1).Success?
    ensures var (macros, lines) := ParseDefs(source, 1).value;
            && TraceExpand(Top(lines), f, macros) == Some(r) && LinesOf(r) == Expand(source).value
            && Distinct(f) && 0 !in Numbers(f)
            && (AllCalm(Top(lines), f, macros) && PlainNames(lines) ==> forall o, p | o in r && p in r :: Apart(o, p))
  {
    hide Expand, ParseDefs, TraceExpand, Distinct, Numbers, LinesOf, AllCalm, LooksRenamed, Locals, Apart, CallsHave;
    f, r := ExpansionTraced(source);
    var (macros, lines) := ParseDefs(source, 1).value;
    if AllCalm(Top(lines), f, macros) && PlainNames(lines) {
      CalmAsWritten(Top(lines), f, macros);
      ResultHas(AsWritten, Top(lines), f, macros);
      forall o, p | o in r && p in r
        ensures Apart(o, p)
      {
        PlainLine(lines, o);
        PlainLine(lines, p);
        OriginsApart(o, p);
      }
    }
  }

  lemma PlainLine(lines: seq<string>, o: Origin)
    requires PlainNames(lines) && FromTop(lines, o)
    ensures o.owner == 0 ==> PlainNames([o.written])
  {
    hide Locals, LooksRenamed;
  }

  // ---- the joined text ----

  function Join(lines: seq<string>): string {
    if lines == [] then [] else lines[0] + Join(lines[1..])
  }

  function AllLocals(lines: seq<string>): seq<string> {
    if lines == [] then [] else Locals(lines[0]) + AllLocals(lines[1..])
  }

  /** Where `splitlines` breaks lines: newline, carriage return, vertical tab, form feed and three separators. */
  predicate IsBreak(c: char) {
    c == '\n' || c == '\r' || c == '\U{000b}' || c == '\U{000c}' || '\U{001c}' <= c <= '\U{001e}'
  }

  predicate Unbroken(s: string) {
    forall i | 0 <= i < |s| :: !IsBreak(s[i])
  }

  /** The line ends with a line break. */
  predicate Ends(s: string) {
    s != [] && IsBreak(s[|s| - 1])
  }

  /** Lines as `splitlines` leaves them: all but the last end with a line break. */
  predicate Lines(lines: seq<string>) {
    forall i | 0 <= i < |lines| - 1 :: Ends(lines[i])
  }

  predicate AllEnd(lines: seq<string>) {
    forall i | 0 <= i < |lines| :: Ends(lines[i])
  }

  lemma {:induction false} AfterNewline(q: Scan, a: string)
    requires Ends(a)
    ensures After(q, a) == Out
    decreases |a|
  {
    if |a| > 1 {
      AfterNewline(Feed(q, a[0]), a[1..]);
    } else {
      assert a[1..] == [];
    }
  }

  lemma EndedLocals(a: string, z: string)
    requires Ends(a)
    ensures Locals(a + z) == Locals(a) + Locals(z)
  {
    hide Locals, Labels, After;
    AfterNewline(Out, a);
    LabelsConcat(Out, a, z);
    LabelsAre(a);
    LabelsAre(z);
    LabelsAre(a + z);
  }

  /** The labels of the joined text are those of the lines. */
  lemma {:induction false} JoinedLocals(lines: seq<string>)
    requires Lines(lines)
    ensures Locals(Join(lines)) == AllLocals(lines)
  {
    hide Locals, Ends;
    if lines == [] {
      NoLocals();
    } else {
      assert forall i | 0 <= i < |lines[1..]| - 1 :: lines[1..][i] == lines[i + 1];
      JoinedLocals(lines[1..]);
      if lines[1..] == [] {
        assert lines[0] + [] == lines[0] && Locals(lines[0]) + [] == Locals(lines[0]);
      } else {
        assert Ends(lines[0]);
        EndedLocals(lines[0], Join(lines[1..]));
      }
    }
  }

  lemma NoLocals()
    ensures Locals([]) == []
  {
  }

  lemma {:induction false} LineLocals(lines: seq<string>, i: nat, a: nat)
    requires i < |lines| && a < |Locals(lines[i])|
    ensures Locals(lines[i])[a] in AllLocals(lines)
  {
    hide Locals;
    if i > 0 {
      LineLocals(lines[1..], i - 1, a);
    }
  }

  // ---- line breaks survive the expansion ----

  lemma {:induction false} ReplaceEnds(s: string, pat: string, v: string)
    requires Ends(s) && pat != [] && Unbroken(pat)
    ensures Ends(Replace(s, pat, v))
    decreases |s|
  {
    if pat <= s {
      assert pat[|pat| - 1] == s[|pat| - 1];
      ReplaceEnds(s[|pat|..], pat, v);
    } else if |s| > 1 {
      ReplaceEnds(s[1..], pat, v);
    } else {
      assert s[1..] == [];
    }
  }

  lemma {:induction false} SubstituteEnds(s: string, b: seq<(string, string)>)
    requires Ends(s) && forall i | 0 <= i < |b| :: Unbroken(b[i].0)
    ensures Ends(Substitute(s, b))
    decreases |b|
  {
    hide Ends, Replace;
    if b != [] {
      ReplaceEnds(s, "$" + b[0].0, b[0].1);
      SubstituteEnds(Replace(s, "$" + b[0].0, b[0].1), b[1..]);
    }
  }

  lemma {:induction false} RenameEnds(s: string, suffix: string)
    requires Ends(s)
    ensures Ends(Rename(s, suffix))
    decreases |s|
  {
    hide WordLen, Rename;
    if LocalHere(s) {
      var n := 2 + WordLen(s[2..]);
      RenameLocal(s, suffix, n);
      var u := s[2..];
      assert !IsWordChar(u[|u| - 1]);
      RenameEnds(s[n..], suffix);
    } else {
      RenameOther(s, suffix);
      if |s| > 1 {
        RenameEnds(s[1..], suffix);
      } else {
        assert s[1..] == [];
        EmptyRename(suffix);
      }
    }
  }

  /** Bodies are whole lines and parameters hold no line break. */
  predicate WholeLines(macros: Table) {
    forall n <- macros :: AllEnd(macros[n].body) && forall i | 0 <= i < |macros[n].params| ::
      Unbroken(macros[n].params[i])
  }

  lemma {:induction false} BindNames(b: seq<(string, string)>, k: string, v: string)
    requires (forall i | 0 <= i < |b| :: Unbroken(b[i].0)) && Unbroken(k)
    ensures forall i | 0 <= i < |Bind(b, k, v)| :: Unbroken(Bind(b, k, v)[i].0)
  {
    if b != [] && b[0].0 != k {
      BindNames(b[1..], k, v);
    }
  }

  lemma {:induction false} BindingNames(params: seq<string>, vals: seq<string>)
    requires |params| <= |vals| && forall i | 0 <= i < |params| :: Unbroken(params[i])
    ensures forall i | 0 <= i < |Bindings(params, vals)| :: Unbroken(Bindings(params, vals)[i].0)
    decreases |params|
  {
    if params != [] {
      var n := |params| - 1;
      BindingNames(params[..n], vals);
      BindNames(Bindings(params[..n], vals), params[n], vals[n]);
    }
  }

  /** Every line of a call ends with a line break. */
  lemma CallEnds(k: LineKind, macros: Table, n: nat)
    requires n != 0 && !k.Plain? && k.name in macros && Instance(k, macros).Some? && WholeLines(macros)
    ensures AllEnd(LinesOf(Owned(k, macros, n)))
  {
    hide Ends, Rename, Suffix, Substitute, Bindings;
    var m := macros[k.name];
    var body := Instance(k, macros).value;
    assert AllEnd(m.body) && forall i | 0 <= i < |m.params| :: Unbroken(m.params[i]);
    if k.WithArgs? {
      BindingNames(m.params, k.vals);
    }
    forall i | 0 <= i < |body|
      ensures Ends(Rename(body[i], Suffix(n)))
    {
      if k.WithArgs? {
        SubstituteEnds(m.body[i], Bindings(m.params, k.vals));
      }
      RenameEnds(body[i], Suffix(n));
    }
  }

  lemma JoinEnds(a: seq<Origin>, b: seq<Origin>)
    requires AllEnd(LinesOf(a)) && Lines(LinesOf(b))
    ensures Lines(LinesOf(a + b)) && (AllEnd(LinesOf(b)) ==> AllEnd(LinesOf(a + b)))
  {
    hide Ends, Rename;
    JoinLines(a, b);
  }

  /** The lines of the result are lines, too. */
  lemma {:induction false} TraceEnds(os: seq<Origin>, f: Forest, macros: Table)
    requires WholeLines(macros) && 0 !in Numbers(f) && Lines(LinesOf(os)) && TraceExpand(os, f, macros).Some?
    ensures var r := TraceExpand(os, f, macros).value;
            Lines(LinesOf(r)) && (AllEnd(LinesOf(os)) ==> AllEnd(LinesOf(r))) && (os == [] ==> r == [])
    decreases f
  {
    hide IsCall, Instance, ParseLine, Rename, Suffix, Owned, Ends, WholeLines, LinesOf;
    NoLines();
    if !f.Nil? {
      var r := TraceExpand(os, f, macros).value;
      FirstLine(os);
      TailLines(LinesOf(os));
      TraceEnds(os[1..], f.rest, macros);
      var b := TraceExpand(os[1..], f.rest, macros).value;
      if f.Leaf? {
        if os[1..] == [] {
          assert [os[0]] + b == [os[0]];
        } else {
          TailNotEmpty(os);
          JoinEnds([os[0]], b);
        }
      } else {
        var k := ParseLine(os[0].Line());
        CallName(os[0].Line(), macros);
        CallEnds(k, macros, f.num);
        EndsAreLines(LinesOf(Owned(k, macros, f.num)));
        TraceEnds(Owned(k, macros, f.num), f.kids, macros);
        JoinEnds(TraceExpand(Owned(k, macros, f.num), f.kids, macros).value, b);
      }
    }
  }

  lemma EndsAreLines(lines: seq<string>)
    requires AllEnd(lines)
    ensures Lines(lines)
  {
  }

  lemma TailLines(lines: seq<string>)
    requires lines != [] && Lines(lines)
    ensures Lines(lines[1..]) && (|lines| > 1 ==> Ends(lines[0])) &&
            (AllEnd(lines) ==> Ends(lines[0]) && AllEnd(lines[1..]))
  {
    hide Ends;
    assert forall i | 0 <= i < |lines| - 1 :: lines[1..][i] == lines[i + 1];
  }

  lemma TailNotEmpty(os: seq<Origin>)
    requires os != [] && os[1..] != []
    ensures |LinesOf(os)| > 1
  {
  }

  // ---- definitions hold whole lines ----

  lemma {:induction false} WordsBlankFree(s: string)
    ensures forall i | 0 <= i < |Words(s)| :: Unbroken(Words(s)[i])
    decreases |s|
  {
    if s == [] {
    } else if IsBlank(s[0]) {
      WordsBlankFree(s[1..]);
    } else {
      WordsBlankFree(s[RunLen(s)..]);
      assert Unbroken(s[..RunLen(s)]);
    }
  }

  lemma {:induction false} BodyEnds(lines: seq<string>)
    requires Lines(lines) && TakeBody(lines).Some?
    ensures AllEnd(TakeBody(lines).value.0) && Lines(TakeBody(lines).value.1)
    decreases |lines|
  {
    hide Ends, IsEnd;
    TailLines(lines);
    if !IsEnd(lines[0]) {
      BodyEnds(lines[1..]);
      assert lines[1..] != [];
    }
  }

  lemma {:induction false} DefinitionsEnd(lines: seq<string>, at: nat)
    requires Lines(lines) && ParseDefs(lines, at).Success?
    ensures WholeLines(ParseDefs(lines, at).value.0) && Lines(ParseDefs(lines, at).value.1)
    ensures lines == [] ==> ParseDefs(lines, at).value.1 == []
    decreases |lines|
  {
    hide Ends, TakeBody;
    if lines != [] {
      TailLines(lines);
      var d := Definition(lines[0]);
      if d.None? {
        hide Definition;
        DefinitionsEnd(lines[1..], at + 1);
        if lines[1..] != [] {
          ConsLines(lines[0], ParseDefs(lines[1..], at + 1).value.1);
        }
      } else {
        DefinitionParams(lines[0]);
        hide Definition;
        BodyEnds(lines[1..]);
        var b := TakeBody(lines[1..]).value;
        DefinitionsEnd(b.1, at + |lines| - |b.1|);
      }
    }
  }

  lemma ConsLines(s: string, rest: seq<string>)
    requires Ends(s) && Lines(rest)
    ensures Lines([s] + rest)
  {
    hide Ends;
  }

  lemma DefinitionParams(s: string)
    requires Definition(s).Some?
    ensures forall i | 0 <= i < |Definition(s).value.1| :: Unbroken(Definition(s).value.1[i])
  {
    hide Words, StripLeft, WordLen;
    var v := StripLeft(StripLeft(s)[6..]);
    WordsBlankFree(v[WordLen(v)..]);
  }

  // ---- the final names ----

  /** From the lines of a source to its final labels: when no argument carries `~@` or touches label text, and
      no top-level name looks renamed, the final names of two label occurrences are equal exactly when they come
      from the same call and were written the same; and all of them start with `__loc`. */
  lemma FinalLabels(source: seq<string>) returns (f: Forest, r: seq<Origin>)
    requires Expand(source).Success? && Lines(source)
    ensures ParseDefs(source, 1).Success?
    ensures var (macros, lines) := ParseDefs(source, 1).value;
            var text := Join(Expand(source).value);
            var names := FinalNames(Relabel(text, []).1);
            && TraceExpand(Top(lines), f, macros) == Some(r) && LinesOf(r) == Expand(source).value
            && Relabel(text, []).0 == RelabelBy(text, names)
            && (forall o <- r :: Renamed(o, names))
            && (AllCalm(Top(lines), f, macros) && PlainNames(lines) ==> forall o, p | o in r && p in r ::
                 FinallyApart(o, p, names))
  {
    hide Expand, ParseDefs, TraceExpand, LinesOf, AllCalm, PlainNames, Locals, Relabel, RelabelBy, FinalNames, Lines,
      WholeLines,
         Distinct, Numbers, Apart;
    f, r := LabelsStayApart(source);
    var (macros, lines) := ParseDefs(source, 1).value;
    DefinitionsEnd(source, 1);
    TopLines(lines);
    TraceEnds(Top(lines), f, macros);
    var text := Join(Expand(source).value);
    LocalLabelsInjective(text);
    JoinedLocals(Expand(source).value);
    var names := FinalNames(Relabel(text, []).1);
    forall o <- r
      ensures Renamed(o, names)
    {
      LineOf(r, o, names, text);
    }
    if AllCalm(Top(lines), f, macros) && PlainNames(lines) {
      forall o, p | o in r && p in r
        ensures FinallyApart(o, p, names)
      {
        assert Apart(o, p) && Renamed(o, names) && Renamed(p, names);
        FinalApart(o, p, names);
      }
    }
  }

  /** Every label of the line has a final name. */
  ghost predicate Renamed(o: Origin, names: map<string, string>) {
    forall a | 0 <= a < |Locals(o.Line())| :: Locals(o.Line())[a] in names && "__loc" <= names[Locals(o.Line())[a]]
  }

  ghost predicate FinallyApart(o: Origin, p: Origin, names: map<string, string>) {
    && |Locals(o.Line())| == |Locals(o.written)| && |Locals(p.Line())| == |Locals(p.written)|
    && forall a, b | 0 <= a < |Locals(o.written)| && 0 <= b < |Locals(p.written)| ::
         var x, y := Locals(o.Line())[a], Locals(p.Line())[b];
         && x in names && y in names
         && (names[x] == names[y] <==> o.owner == p.owner && Locals(o.written)[a] == Locals(p.written)[b])
  }

  lemma FinalApart(o: Origin, p: Origin, names: map<string, string>)
    requires Apart(o, p) && Renamed(o, names) && Renamed(p, names)
    requires forall x, y | x in names && y in names && names[x] == names[y] :: x == y
    ensures FinallyApart(o, p, names)
  {
    hide Locals;
  }

  lemma LineOf(r: seq<Origin>, o: Origin, names: map<string, string>, text: string)
    requires o in r && Locals(text) == AllLocals(LinesOf(r))
    requires forall x :: x in names <==> x in Locals(text)
    requires forall x | x in names :: "__loc" <= names[x]
    ensures Renamed(o, names)
  {
    hide Locals, AllLocals;
    var i :| 0 <= i < |r| && r[i] == o;
    assert LinesOf(r)[i] == o.Line();
    forall a | 0 <= a < |Locals(o.Line())|
      ensures Locals(o.Line())[a] in Locals(text)
    {
      LineLocals(LinesOf(r), i, a);
    }
  }
}
