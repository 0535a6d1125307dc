/** Multi-pass macro expansion is full recursive expansion, and stops exactly when the call depth allows. */
module MacroProofs {
  import opened Wrappers
  import opened Regs
  import opened Macros

  // ---- recursive expansion ----

  /** The call tree of a list of lines: a plain line is a leaf, a call is a node with its call number. */
  datatype Forest = Nil | Leaf(rest: Forest) | Node(num: nat, kids: Forest, rest: Forest)

  /** Expand every call depth first, taking the call numbers from the forest. None if it does not fit. */
  function FullExpand(lines: seq<string>, f: Forest, macros: Table): Option<seq<string>>
    decreases f
  {
    match f
    case Nil => if lines == [] then Some([]) else None
    case Leaf(rest) =>
      if lines == [] || IsCall(lines[0], macros) then None
      else (match FullExpand(lines[1..], rest, macros) case None => None case Some(r) => Some([lines[0]] + r))
    case Node(n, kids, rest) =>
      if lines == [] || !IsCall(lines[0], macros) then None
      else
        match Instance(ParseLine(lines[0]), macros)
        case None => None
        case Some(body) =>
          var a, b := FullExpand(RenameBody(body, Suffix(n)), kids, macros), FullExpand(lines[1..], rest, macros);
          if a.None? || b.None? then None else Some(a.value + b.value)
  }

  function Numbers(f: Forest): set<nat> {
    match f
    case Nil => {}
    case Leaf(rest) => Numbers(rest)
    case Node(n, kids, rest) => {n} + Numbers(kids) + Numbers(rest)
  }

  /** No two calls share a number. */
  predicate Distinct(f: Forest) {
    match f
    case Nil => true
    case Leaf(rest) => Distinct(rest)
    case Node(n, kids, rest) =>
      && Distinct(kids) && Distinct(rest)
      && n !in Numbers(kids) && n !in Numbers(rest) && Numbers(kids) !! Numbers(rest)
  }

  /** Nesting depth of the calls. */
  function Height(f: Forest): nat {
    match f
    case Nil => 0
    case Leaf(rest) => Height(rest)
    case Node(_, kids, rest) => if Height(kids) + 1 > Height(rest) then Height(kids) + 1 else Height(rest)
  }

  /** The forest of a concatenation splits. */
  lemma {:induction false} SplitForest(a: seq<string>, b: seq<string>, f: Forest, macros: Table) returns (fa: Forest,
                                       fb: Forest)
    requires FullExpand(a + b, f, macros).Some?
    ensures FullExpand(a, fa, macros).Some? && FullExpand(b, fb, macros).Some?
    ensures FullExpand(a + b, f, macros).value == FullExpand(a, fa, macros).value + FullExpand(b, fb, macros).value
    ensures Numbers(fa) + Numbers(fb) == Numbers(f)
    ensures Distinct(f) ==> Distinct(fa) && Distinct(fb) && Numbers(fa) !! Numbers(fb)
    ensures Height(fa) <= Height(f) && Height(fb) <= Height(f)
    decreases |a|
  {
    hide IsCall, Instance, ParseLine, RenameBody, Suffix;
    if a == [] {
      assert a + b == b;
      fa, fb := Nil, f;
    } else {
      assert (a + b)[0] == a[0] && (a + b)[1..] == a[1..] + b;
      var ra;
      ra, fb := SplitForest(a[1..], b, f.rest, macros);
      fa := if f.Leaf? then Leaf(ra) else Node(f.num, f.kids, ra);
    }
  }

  lemma NodeExpands(lines: seq<string>, macros: Table, n: nat, kids: Forest, rest: Forest)
    requires lines != [] && IsCall(lines[0], macros) && Instance(ParseLine(lines[0]), macros).Some?
    requires FullExpand(RenameBody(Instance(ParseLine(lines[0]), macros).value, Suffix(n)), kids, macros).Some?
    requires FullExpand(lines[1..], rest, macros).Some?
    ensures FullExpand(lines, Node(n, kids, rest), macros) ==
            Some(FullExpand(RenameBody(Instance(ParseLine(lines[0]), macros).value, Suffix(n)), kids, macros).value +
                 FullExpand(lines[1..], rest, macros).value)
  {
    hide Instance, ParseLine, RenameBody, Suffix;
  }

  lemma LeafExpands(lines: seq<string>, macros: Table, rest: Forest)
    requires lines != [] && !IsCall(lines[0], macros) && FullExpand(lines[1..], rest, macros).Some?
    ensures FullExpand(lines, Leaf(rest), macros) == Some([lines[0]] + FullExpand(lines[1..], rest, macros).value)
  {
    hide IsCall;
  }

  /** A forest for the lines after a pass becomes one for the lines before it, one level higher. */
  lemma {:induction false} LiftForest(lines: seq<string>, macros: Table, c: nat, at: nat, f: Forest) returns (g: Forest)
    requires OnePass(lines, macros, c, at).Success?
    requires var p := OnePass(lines, macros, c, at).value;
             FullExpand(p.lines, f, macros).Some? && Distinct(f) && forall n <- Numbers(f) :: n > p.counter
    ensures var p := OnePass(lines, macros, c, at).value;
            && FullExpand(lines, g, macros) == FullExpand(p.lines, f, macros)
            && Distinct(g) && c <= p.counter
            && (forall n <- Numbers(g) :: n in Numbers(f) || c < n <= p.counter)
            && Height(g) <= Height(f) + 1
    decreases |lines|
  {
    hide Instance, ParseLine, RenameBody, Suffix, IsCall, FullExpand;
    var p := OnePass(lines, macros, c, at).value;
    if lines == [] {
      g := f;
    } else if IsCall(lines[0], macros) {
      CallName(lines[0], macros);
      var body := RenameBody(Instance(ParseLine(lines[0]), macros).value, Suffix(c + 1));
      var q := OnePass(lines[1..], macros, c + 1, at + 1).value;
      assert p.lines == body + q.lines && p.counter == q.counter;
      hide OnePass;
      var fa, fb := SplitForest(body, q.lines, f, macros);
      var rest := LiftForest(lines[1..], macros, c + 1, at + 1, fb);
      g := Node(c + 1, fa, rest);
      NodeExpands(lines, macros, c + 1, fa, rest);
      Above(fa, rest, fb, f, c, q.counter);
    } else {
      var q := OnePass(lines[1..], macros, c, at + 1).value;
      assert p.lines == [lines[0]] + q.lines && p.counter == q.counter;
      hide OnePass;
      var fa, fb := SplitForest([lines[0]], q.lines, f, macros);
      OneLeaf(lines[0], fa, macros);
      var rest := LiftForest(lines[1..], macros, c, at + 1, fb);
      g := Leaf(rest);
      LeafExpands(lines, macros, rest);
    }
  }

  /** The numbers of a new node, its body and its siblings do not clash. */
  lemma Above(fa: Forest, rest: Forest, fb: Forest, f: Forest, c: nat, top: nat)
    requires Numbers(fa) + Numbers(fb) == Numbers(f) && Numbers(fa) !! Numbers(fb) && c + 1 <= top
    requires forall n <- Numbers(f) :: n > top
    requires forall n <- Numbers(rest) :: n in Numbers(fb) || c + 1 < n <= top
    ensures c + 1 !in Numbers(fa) && c + 1 !in Numbers(rest) && Numbers(fa) !! Numbers(rest)
    ensures forall n <- {c + 1} + Numbers(fa) + Numbers(rest) :: n in Numbers(f) || c < n <= top
  {
    hide Numbers;
    assert Numbers(fa) <= Numbers(f) && Numbers(fb) <= Numbers(f);
  }

  lemma OneLeaf(s: string, f: Forest, macros: Table)
    requires !IsCall(s, macros) && FullExpand([s], f, macros).Some?
    ensures FullExpand([s], f, macros).value == [s]
  {
    assert [s][1..] == [];
    if f.Leaf? {
      EmptyForest(f.rest, macros);
    }
  }

  lemma EmptyForest(f: Forest, macros: Table)
    requires FullExpand([], f, macros).Some?
    ensures FullExpand([], f, macros).value == []
  {
  }

  predicate NoCalls(lines: seq<string>, macros: Table) {
    forall i | 0 <= i < |lines| :: !IsCall(lines[i], macros)
  }

  lemma {:induction false} IdlePass(lines: seq<string>, macros: Table, c: nat, at: nat)
    requires OnePass(lines, macros, c, at).Success? && !OnePass(lines, macros, c, at).value.expanded
    ensures OnePass(lines, macros, c, at).value == Sweep(lines, c, false) && NoCalls(lines, macros)
    decreases |lines|
  {
    hide IsCall, Instance, ParseLine, RenameBody, Suffix;
    if lines != [] {
      IdlePass(lines[1..], macros, c, at + 1);
    }
  }

  function Leaves(n: nat): Forest {
    if n == 0 then Nil else Leaf(Leaves(n - 1))
  }

  lemma {:induction false} LeavesExpand(lines: seq<string>, macros: Table)
    requires NoCalls(lines, macros)
    ensures FullExpand(lines, Leaves(|lines|), macros) == Some(lines)
    ensures Numbers(Leaves(|lines|)) == {} && Distinct(Leaves(|lines|)) && Height(Leaves(|lines|)) == 0
  {
    hide IsCall;
    if lines != [] {
      LeavesExpand(lines[1..], macros);
      assert [lines[0]] + lines[1..] == lines;
    }
  }

  /** Every successful multi-pass expansion is the full recursive expansion, with pairwise distinct call
      numbers and at most one level of nesting per pass; no call is left in the result. */
  lemma {:induction false} PassesAreRecursive(lines: seq<string>, macros: Table, c: nat, fuel: nat) returns (f: Forest)
    requires Passes(lines, macros, c, fuel).Success?
    ensures FullExpand(lines, f, macros) == Some(Passes(lines, macros, c, fuel).value)
    ensures Distinct(f) && (forall n <- Numbers(f) :: n > c) && Height(f) < fuel
    ensures NoCalls(Passes(lines, macros, c, fuel).value, macros)
    decreases fuel
  {
    hide OnePass, IsCall;
    var p := OnePass(lines, macros, c, 1).value;
    if p.expanded {
      var g := PassesAreRecursive(p.lines, macros, p.counter, fuel - 1);
      f := LiftForest(lines, macros, c, 1, g);
    } else {
      IdlePass(lines, macros, c, 1);
      LeavesExpand(lines, macros);
      f := Leaves(|lines|);
    }
  }

  /** The same for a whole source. */
  lemma ExpansionIsRecursive(source: seq<string>) returns (f: Forest)
    requires Expand(source).Success?
    ensures ParseDefs(source, 1).Success?
    ensures var (macros, lines) := ParseDefs(source, 1).value;
            && FullExpand(lines, f, macros) == Some(Expand(source).value)
            && Distinct(f) && 0 !in Numbers(f) && Height(f) <= 63
            && NoCalls(Expand(source).value, macros)
  {
    hide Passes, FullExpand;
    var p := ParseDefs(source, 1).value;
    f := PassesAreRecursive(p.1, p.0, 0, MAX_PASSES);
  }

  // ---- shapes: where the separators of a string are ----

  /** Separators stay, every maximal run of other characters becomes one `x`. */
  function Shape(s: string): string {
    if s == [] then []
    else if IsSep(s[0]) then [s[0]] + Shape(s[1..])
    else if Begins(s[1..]) then Shape(s[1..])
    else ['x'] + Shape(s[1..])
  }

  predicate Begins(s: string) {
    s != [] && !IsSep(s[0])
  }

  predicate SepFree(s: string) {
    forall i | 0 <= i < |s| :: !IsSep(s[i])
  }

  lemma {:induction false} ShapeRun(a: string, b: string)
    requires a != [] && SepFree(a)
    ensures Shape(a + b) == if Begins(b) then Shape(b) else ['x'] + Shape(b)
    ensures Begins(a + b)
  {
    assert (a + b)[1..] == a[1..] + b;
    if |a| > 1 {
      ShapeRun(a[1..], b);
    } else {
      assert a[1..] + b == b;
    }
  }

  lemma {:induction false} ReplaceShape(s: string, pat: string, v: string)
    requires pat != [] && SepFree(pat) && v != [] && SepFree(v)
    ensures Shape(Replace(s, pat, v)) == Shape(s) && Begins(Replace(s, pat, v)) == Begins(s)
    decreases |s|
  {
    if s == [] {
    } else if pat <= s {
      var r := s[|pat|..];
      ReplaceShape(r, pat, v);
      assert s == pat + r;
      ShapeRun(pat, r);
      ShapeRun(v, Replace(r, pat, v));
    } else {
      var r := s[1..];
      ReplaceShape(r, pat, v);
      assert s == [s[0]] + r;
      assert ([s[0]] + Replace(r, pat, v))[1..] == Replace(r, pat, v);
    }
  }

  lemma {:induction false} RenameShape(s: string, suffix: string)
    requires SepFree(suffix)
    ensures Shape(Rename(s, suffix)) == Shape(s) && Begins(Rename(s, suffix)) == Begins(s)
    decreases |s|
  {
    if s == [] {
    } else if LocalHere(s) {
      var n := 2 + WordLen(s[2..]);
      var tok, r := s[..n], s[n..];
      RenameShape(r, suffix);
      assert s == tok + r;
      assert forall i | 2 <= i < n :: tok[i] == s[2..][i - 2];
      ShapeRun(tok, r);
      ShapeRun(tok + suffix, Rename(r, suffix));
    } else {
      var r := s[1..];
      RenameShape(r, suffix);
      assert ([s[0]] + Rename(r, suffix))[1..] == Rename(r, suffix);
    }
  }

  /** Two tails read alike: same kind, same number of arguments. */
  predicate Alike(k: LineKind, l: LineKind) {
    match k
    case Plain => l.Plain?
    case Bare(n) => l == k
    case WithArgs(n, vals) => l.WithArgs? && l.name == n && |l.vals| == |vals|
  }

  lemma {:induction false} AllBlankShape(t: string)
    ensures AllBlank(t) <==> AllBlank(Shape(t))
    ensures AllBlank(t) ==> Shape(t) == t
    ensures Begins(t) ==> Shape(t) != [] && Shape(t)[0] == 'x'
  {
    if t != [] {
      AllBlankShape(t[1..]);
      if AllBlank(t) {
        assert [t[0]] + t[1..] == t;
      }
    }
  }

  lemma {:induction false} NewlineShape(t: string, seen: bool)
    ensures NewlineInside(t, seen) <==> NewlineInside(Shape(t), seen)
  {
    if t != [] {
      var r := t[1..];
      NewlineShape(r, seen || !IsBlank(t[0]));
      AllBlankShape(r);
      if IsSep(t[0]) {
        assert Shape(t)[1..] == Shape(r);
      } else if Begins(r) {
        SeenIrrelevant(Shape(r), seen);
      } else {
        assert Shape(t)[1..] == Shape(r);
      }
    }
  }

  lemma SeenIrrelevant(z: string, seen: bool)
    requires z != [] && z[0] == 'x'
    ensures NewlineInside(z, seen) <==> NewlineInside(z, true)
  {
  }

  function Marks(z: string): nat {
    if z == [] then 0 else (if IsSep(z[0]) then 0 else 1) + Marks(z[1..])
  }

  lemma {:induction false} FieldsShape(t: string)
    ensures |Fields(t)| == Marks(Shape(t))
    decreases |t|
  {
    if t == [] {
    } else if IsSep(t[0]) {
      FieldsShape(t[1..]);
      assert Shape(t)[1..] == Shape(t[1..]);
    } else {
      var n := FieldLen(t);
      FieldsShape(t[n..]);
      assert t == t[..n] + t[n..];
      ShapeRun(t[..n], t[n..]);
      assert (['x'] + Shape(t[n..]))[1..] == Shape(t[n..]);
    }
  }

  lemma TailsAlike(name: string, t: string, t': string)
    requires Shape(t) == Shape(t')
    ensures Alike(TailKind(name, t), TailKind(name, t'))
  {
    AllBlankShape(t);
    AllBlankShape(t');
    NewlineShape(t, false);
    NewlineShape(t', false);
    FieldsShape(t);
    FieldsShape(t');
  }

  // ---- the first word of a line ----

  predicate BlankFree(s: string) {
    forall i | 0 <= i < |s| :: !IsBlank(s[i])
  }

  predicate BlankOnly(s: string) {
    forall i | 0 <= i < |s| :: IsBlank(s[i])
  }

  predicate AtBreak(r: string) {
    r == [] || IsBlank(r[0])
  }

  lemma {:induction false} LineParts(s: string) returns (lead: string)
    ensures var (w, r) := FirstWord(s);
            s == lead + w + r && BlankOnly(lead) && BlankFree(w) && AtBreak(r) && (w == [] ==> r == [])
  {
    var (w, r) := FirstWord(s);
    if s != [] && IsBlank(s[0]) {
      lead := LineParts(s[1..]);
      assert FirstWord(s[1..]) == (w, r);
      assert s == [s[0]] + s[1..] == ([s[0]] + lead) + w + r;
      lead := [s[0]] + lead;
    } else {
      lead := [];
      assert StripLeft(s) == s && s == w + r;
    }
  }

  lemma {:induction false} RunLenIs(w: string, r: string)
    requires BlankFree(w) && AtBreak(r)
    ensures RunLen(w + r) == |w|
  {
    if w == [] {
      assert w + r == r;
    } else {
      assert (w + r)[1..] == w[1..] + r;
      RunLenIs(w[1..], r);
    }
  }

  lemma {:induction false} PartsOfLine(lead: string, w: string, r: string)
    requires BlankOnly(lead) && BlankFree(w) && AtBreak(r) && (w == [] ==> r == [])
    ensures FirstWord(lead + w + r) == (w, r)
  {
    if lead == [] {
      assert lead + w + r == w + r;
      RunLenIs(w, r);
      assert StripLeft(w + r) == w + r;
      assert (w + r)[..|w|] == w && (w + r)[|w|..] == r;
    } else {
      assert (lead + w + r)[1..] == lead[1..] + w + r;
      PartsOfLine(lead[1..], w, r);
    }
  }

  lemma {:induction false} ReplacePrefix(p: string, r: string, pat: string, v: string)
    requires pat != [] && pat[0] !in p
    ensures Replace(p + r, pat, v) == p + Replace(r, pat, v)
  {
    if p == [] {
      assert p + r == r;
    } else {
      assert (p + r)[1..] == p[1..] + r && (p + r)[0] == p[0];
      assert !(pat <= p + r) by { assert pat[0] != (p + r)[0]; }
      ReplacePrefix(p[1..], r, pat, v);
    }
  }

  predicate CleanBindings(b: seq<(string, string)>) {
    forall i | 0 <= i < |b| :: SepFree(b[i].0) && b[i].1 != [] && SepFree(b[i].1)
  }

  /** Substitution leaves a literal first word alone and keeps the shape of the rest. */
  lemma {:induction false} SubstituteLine(lead: string, w: string, r: string,
                                          b: seq<(string, string)>) returns (r': string)
    requires '$' !in lead && '$' !in w && AtBreak(r) && CleanBindings(b)
    ensures Substitute(lead + w + r, b) == lead + w + r'
    ensures Shape(r') == Shape(r) && AtBreak(r') && (r == [] ==> r' == [])
    decreases |b|
  {
    if b == [] {
      r' := r;
    } else {
      var pat, v := "$" + b[0].0, b[0].1;
      ReplacePrefix(lead + w, r, pat, v);
      ReplaceShape(r, pat, v);
      var r1 := Replace(r, pat, v);
      assert AtBreak(r1) by { if r != [] { assert !(pat <= r) by { assert pat[0] != r[0]; } } }
      assert CleanBindings(b[1..]);
      r' := SubstituteLine(lead, w, r1, b[1..]);
    }
  }

  lemma {:induction false} WordLenStops(w: string, r: string)
    requires AtBreak(r)
    ensures WordLen(w + r) == WordLen(w)
  {
    if w == [] {
      assert w + r == r;
    } else {
      assert (w + r)[1..] == w[1..] + r;
      WordLenStops(w[1..], r);
    }
  }

  lemma RenameLocal(s: string, suffix: string, n: nat)
    requires LocalHere(s) && n == 2 + WordLen(s[2..])
    ensures n <= |s| && Rename(s, suffix) == s[..n] + suffix + Rename(s[n..], suffix)
  {
  }

  lemma RenameOther(s: string, suffix: string)
    requires s != [] && !LocalHere(s)
    ensures Rename(s, suffix) == [s[0]] + Rename(s[1..], suffix)
  {
  }

  /** Renaming works word by word. */
  lemma {:induction false} RenameConcat(a: string, r: string, suffix: string)
    requires AtBreak(r)
    ensures Rename(a + r, suffix) == Rename(a, suffix) + Rename(r, suffix)
    decreases |a|
  {
    hide WordLen, Rename, AtBreak;
    var s := a + r;
    if a == [] {
      assert s == r;
      EmptyRename(suffix);
    } else {
      LocalHereStops(a, r);
      if LocalHere(a) {
        assert s[2..] == a[2..] + r;
        WordLenStops(a[2..], r);
        var n := 2 + WordLen(a[2..]);
        hide LocalHere;
        RenameLocal(s, suffix, n);
        RenameLocal(a, suffix, n);
        assert s[..n] == a[..n] && s[n..] == a[n..] + r;
        RenameConcat(a[n..], r, suffix);
        Associate3(a[..n], suffix, Rename(a[n..], suffix), Rename(r, suffix));
      } else {
        hide LocalHere;
        RenameOther(s, suffix);
        RenameOther(a, suffix);
        assert s[1..] == a[1..] + r && s[0] == a[0];
        RenameConcat(a[1..], r, suffix);
      }
    }
  }

  lemma EmptyRename(suffix: string)
    ensures Rename([], suffix) == []
  {
  }

  lemma Associate3(a: string, b: string, c: string, d: string)
    ensures a + b + (c + d) == a + b + c + d
  {
  }

  lemma LocalHereStops(a: string, r: string)
    requires AtBreak(r) && a != []
    ensures LocalHere(a + r) == LocalHere(a)
  {
  }

  lemma {:induction false} RenameKeepsPlain(s: string, suffix: string)
    requires '~' !in s
    ensures Rename(s, suffix) == s
  {
    if s != [] {
      RenameKeepsPlain(s[1..], suffix);
      assert [s[0]] + s[1..] == s;
    }
  }

  lemma {:induction false} RenameKeepsTilde(s: string, suffix: string)
    requires BlankFree(s) && BlankFree(suffix)
    ensures '~' in s ==> '~' in Rename(s, suffix)
    ensures BlankFree(Rename(s, suffix)) && (s != [] ==> Rename(s, suffix) != [])
    decreases |s|
  {
    hide WordLen, Rename;
    if s == [] {
      EmptyRename(suffix);
    } else if LocalHere(s) {
      var n := 2 + WordLen(s[2..]);
      RenameLocal(s, suffix, n);
      var r := Rename(s[n..], suffix);
      RenameKeepsTilde(s[n..], suffix);
      assert (s[..n] + suffix + r)[0] == '~';
      JoinBlankFree(s[..n], suffix);
      JoinBlankFree(s[..n] + suffix, r);
    } else {
      RenameOther(s, suffix);
      RenameKeepsTilde(s[1..], suffix);
      JoinBlankFree([s[0]], Rename(s[1..], suffix));
      assert s == [s[0]] + s[1..];
    }
  }

  lemma JoinBlankFree(a: string, b: string)
    requires BlankFree(a) && BlankFree(b)
    ensures BlankFree(a + b)
  {
  }

  lemma TildeNotIdent(w: string)
    requires '~' in w
    ensures !IsIdent(w)
  {
  }

  /** Renaming does not change how a line is read. */
  lemma RenameAlike(s: string, suffix: string)
    requires SepFree(suffix)
    ensures Alike(ParseLine(s), ParseLine(Rename(s, suffix)))
  {
    var lead := LineParts(s);
    var (w, r) := FirstWord(s);
    RenameConcat(lead + w, r, suffix);
    BlankLead(lead, w, suffix);
    RenameShape(r, suffix);
    RenameKeepsTilde(w, suffix);
    var w', r' := Rename(w, suffix), Rename(r, suffix);
    PartsOfLine(lead, w', r');
    TailsAlike(w, r, r');
    if '~' in w {
      TildeNotIdent(w);
      TildeNotIdent(w');
    } else {
      RenameKeepsPlain(w, suffix);
    }
  }

  lemma {:induction false} BlankLead(lead: string, w: string, suffix: string)
    requires BlankOnly(lead)
    ensures Rename(lead + w, suffix) == lead + Rename(w, suffix)
  {
    if lead == [] {
      assert lead + w == w;
    } else {
      assert (lead + w)[1..] == lead[1..] + w;
      BlankLead(lead[1..], w, suffix);
    }
  }

  /** Nor does substitution, when the first word is literal. */
  lemma SubstituteAlike(s: string, b: seq<(string, string)>)
    requires '$' !in FirstWord(s).0 && CleanBindings(b)
    ensures Alike(ParseLine(s), ParseLine(Substitute(s, b)))
  {
    var lead := LineParts(s);
    var (w, r) := FirstWord(s);
    assert '$' !in lead;
    var r' := SubstituteLine(lead, w, r, b);
    PartsOfLine(lead, w, r');
    TailsAlike(w, r, r');
  }

  // ---- exact termination ----

  /** The first word of a line holds no parameter. */
  predicate LiteralHead(s: string) {
    '$' !in FirstWord(s).0
  }

  /** A call with arguments gives all of them. */
  predicate Supplied(s: string, macros: Table) {
    var k := ParseLine(s);
    k.WithArgs? && k.name in macros ==> |k.vals| >= |macros[k.name].params|
  }

  predicate AllSupplied(lines: seq<string>, macros: Table) {
    forall i | 0 <= i < |lines| :: Supplied(lines[i], macros)
  }

  predicate MacroOk(m: Macro, macros: Table) {
    && (forall i | 0 <= i < |m.params| :: SepFree(m.params[i]))
    && (forall i | 0 <= i < |m.body| :: LiteralHead(m.body[i]))
    && AllSupplied(m.body, macros)
  }

  /** Literal-headed bodies whose calls have enough arguments, and parameters without commas. */
  predicate TableOk(macros: Table) {
    forall n <- macros :: MacroOk(macros[n], macros)
  }

  /** The static call graph below a line is at most k calls deep. */
  predicate DepthWithin(s: string, macros: Table, k: nat)
    decreases k
  {
    !IsCall(s, macros) ||
    (k > 0 && forall i | 0 <= i < |macros[ParseLine(s).name].body| ::
                DepthWithin(macros[ParseLine(s).name].body[i], macros, k - 1))
  }

  predicate AllWithin(lines: seq<string>, macros: Table, k: nat) {
    forall i | 0 <= i < |lines| :: DepthWithin(lines[i], macros, k)
  }

  lemma AlikeSame(s: string, s': string, macros: Table, k: nat)
    requires Alike(ParseLine(s), ParseLine(s'))
    ensures IsCall(s, macros) == IsCall(s', macros)
    ensures Supplied(s, macros) == Supplied(s', macros)
    ensures DepthWithin(s, macros, k) == DepthWithin(s', macros, k)
  {
  }

  lemma {:induction false} FieldsClean(t: string)
    ensures forall i | 0 <= i < |Fields(t)| :: Fields(t)[i] != [] && SepFree(Fields(t)[i])
    decreases |t|
  {
    if t == [] {
    } else if IsSep(t[0]) {
      FieldsClean(t[1..]);
    } else {
      FieldsClean(t[FieldLen(t)..]);
    }
  }

  predicate CleanFields(vals: seq<string>) {
    forall i | 0 <= i < |vals| :: vals[i] != [] && SepFree(vals[i])
  }

  lemma {:induction false} BindClean(b: seq<(string, string)>, k: string, v: string)
    requires CleanBindings(b) && SepFree(k) && v != [] && SepFree(v)
    ensures CleanBindings(Bind(b, k, v))
  {
    if b != [] && b[0].0 != k {
      assert CleanBindings(b[1..]);
      BindClean(b[1..], k, v);
    }
  }

  lemma {:induction false} BindingsClean(params: seq<string>, vals: seq<string>)
    requires |params| <= |vals| && CleanFields(vals)
    requires forall i | 0 <= i < |params| :: SepFree(params[i])
    ensures CleanBindings(Bindings(params, vals))
    decreases |params|
  {
    if params != [] {
      var n := |params| - 1;
      assert forall i | 0 <= i < n :: params[..n][i] == params[i];
      BindingsClean(params[..n], vals);
      BindClean(Bindings(params[..n], vals), params[n], vals[n]);
    }
  }

  lemma {:induction false} DecimalClean(n: nat)
    ensures SepFree(Decimal(n)) && Decimal(n) != []
  {
    if n >= 10 {
      DecimalClean(n / 10);
    }
  }

  lemma SuffixClean(n: nat)
    ensures SepFree(Suffix(n))
  {
    DecimalClean(n);
  }

  /** Every line of an expanded body reads like the line of the definition it comes from. */
  lemma InstanceAlike(s: string, macros: Table, n: nat, i: nat)
    requires TableOk(macros) && IsCall(s, macros) && Supplied(s, macros)
    requires i < |macros[ParseLine(s).name].body|
    ensures Instance(ParseLine(s), macros).Some?
    ensures var body := macros[ParseLine(s).name].body;
            && |Instance(ParseLine(s), macros).value| == |body|
            && Alike(ParseLine(body[i]), ParseLine(Rename(Instance(ParseLine(s), macros).value[i], Suffix(n))))
  {
    hide ParseLine, Rename, Suffix, Substitute, Bindings, FirstWord;
    var k := ParseLine(s);
    var m := macros[k.name];
    assert MacroOk(m, macros) && LiteralHead(m.body[i]);
    var b := if k.WithArgs? then Bindings(m.params, k.vals) else [];
    SuffixClean(n);
    if k.WithArgs? {
      ValsClean(s);
      BindingsClean(m.params, k.vals);
    }
    var t := Instance(k, macros).value[i];
    assert t == Substitute(m.body[i], b) by { NoBindings(); }
    SubstituteAlike(m.body[i], b);
    RenameAlike(t, Suffix(n));
    AlikeTrans(ParseLine(m.body[i]), ParseLine(t), ParseLine(Rename(t, Suffix(n))));
  }

  lemma AlikeTrans(a: LineKind, b: LineKind, c: LineKind)
    requires Alike(a, b) && Alike(b, c)
    ensures Alike(a, c)
  {
  }

  lemma ValsClean(s: string)
    requires ParseLine(s).WithArgs?
    ensures CleanFields(ParseLine(s).vals)
  {
    var (w, t) := FirstWord(s);
    FieldsClean(t);
  }

  /** A call's expanded body, as a whole. */
  lemma BodyAlike(s: string, macros: Table, n: nat, k: nat)
    requires TableOk(macros) && IsCall(s, macros) && Supplied(s, macros)
    ensures Instance(ParseLine(s), macros).Some?
    ensures var body := RenameBody(Instance(ParseLine(s), macros).value, Suffix(n));
            && AllSupplied(body, macros)
            && (AllWithin(body, macros, k) <==> DepthWithin(s, macros, k + 1))
  {
    hide ParseLine, Rename, Suffix, Instance, Supplied;
    var def := macros[ParseLine(s).name].body;
    assert MacroOk(macros[ParseLine(s).name], macros);
    InstanceSome(s, macros);
    var body := RenameBody(Instance(ParseLine(s), macros).value, Suffix(n));
    assert |body| == |def| by { if |def| > 0 { InstanceAlike(s, macros, n, 0); } else { InstanceLength(s, macros); } }
    forall i | 0 <= i < |body|
      ensures Supplied(body[i], macros) && DepthWithin(body[i], macros, k) == DepthWithin(def[i], macros, k)
    {
      InstanceAlike(s, macros, n, i);
      AlikeSame(def[i], body[i], macros, k);
    }
    WithinSame(body, def, macros, k);
  }

  lemma WithinSame(a: seq<string>, b: seq<string>, macros: Table, k: nat)
    requires |a| == |b| && forall i | 0 <= i < |a| :: DepthWithin(a[i], macros, k) == DepthWithin(b[i], macros, k)
    ensures AllWithin(a, macros, k) == AllWithin(b, macros, k)
  {
    hide DepthWithin;
  }

  lemma InstanceSome(s: string, macros: Table)
    requires IsCall(s, macros) && Supplied(s, macros)
    ensures Instance(ParseLine(s), macros).Some?
  {
  }

  lemma InstanceLength(s: string, macros: Table)
    requires IsCall(s, macros) && Supplied(s, macros)
    ensures |Instance(ParseLine(s), macros).value| == |macros[ParseLine(s).name].body|
  {
  }

  /** The first line and the others. */
  lemma FirstAndRest(lines: seq<string>, macros: Table, k: nat)
    requires lines != []
    ensures AllSupplied(lines, macros) ==> Supplied(lines[0], macros) && AllSupplied(lines[1..], macros)
    ensures NoCalls(lines, macros) <==> !IsCall(lines[0], macros) && NoCalls(lines[1..], macros)
    ensures AllWithin(lines, macros, k) <==> DepthWithin(lines[0], macros, k) && AllWithin(lines[1..], macros, k)
  {
    hide Supplied, IsCall, DepthWithin;
    var rest := lines[1..];
    assert forall i | 0 <= i < |rest| :: rest[i] == lines[i + 1];
    assert forall i | 0 < i < |lines| :: lines[i] == rest[i - 1];
  }

  /** What a pass does with a first line that is no call. */
  lemma PassKeeps(line: string, out: seq<string>, macros: Table, k: nat)
    requires !IsCall(line, macros) && Supplied(line, macros) && AllSupplied(out, macros)
    ensures AllSupplied([line] + out, macros)
    ensures AllWithin([line] + out, macros, k) <==> AllWithin(out, macros, k)
  {
    hide ParseLine, IsCall, Supplied, AllSupplied, AllWithin, NoCalls, DepthWithin;
    assert AllSupplied([line], macros) by { OneSupplied(line, macros); }
    ConcatWithin([line], out, macros, k);
    OneWithin(line, macros, k);
    NonCallWithin(line, macros, k);
  }

  lemma OneSupplied(s: string, macros: Table)
    requires Supplied(s, macros)
    ensures AllSupplied([s], macros)
  {
    hide Supplied;
    assert [s][0] == s;
  }

  /** One pass on supplied lines never fails, and takes one level off the depth. */
  lemma {:induction false} PassExact(lines: seq<string>, macros: Table, c: nat, at: nat, k: nat)
    requires TableOk(macros) && AllSupplied(lines, macros)
    ensures OnePass(lines, macros, c, at).Success?
    ensures var p := OnePass(lines, macros, c, at).value;
            && AllSupplied(p.lines, macros)
            && (p.expanded <==> !NoCalls(lines, macros))
            && (AllWithin(p.lines, macros, k) <==> AllWithin(lines, macros, k + 1))
    decreases |lines|
  {
    hide ParseLine, Suffix, Supplied, RenameBody, Instance, TableOk, IsCall, DepthWithin;
    if lines == [] {
    } else {
      hide AllSupplied, AllWithin, NoCalls;
      var rest := lines[1..];
      FirstAndRest(lines, macros, k + 1);
      if IsCall(lines[0], macros) {
        PassExact(rest, macros, c + 1, at + 1, k);
        BodyAlike(lines[0], macros, c + 1, k);
        CallName(lines[0], macros);
        var body := RenameBody(Instance(ParseLine(lines[0]), macros).value, Suffix(c + 1));
        ConcatWithin(body, OnePass(rest, macros, c + 1, at + 1).value.lines, macros, k);
      } else {
        PassExact(rest, macros, c, at + 1, k);
        PassKeeps(lines[0], OnePass(rest, macros, c, at + 1).value.lines, macros, k);
        NonCallWithin(lines[0], macros, k + 1);
      }
    }
  }

  lemma CallName(s: string, macros: Table)
    requires IsCall(s, macros)
    ensures !ParseLine(s).Plain? && ParseLine(s).name in macros
  {
  }

  lemma NonCallWithin(s: string, macros: Table, k: nat)
    requires !IsCall(s, macros)
    ensures DepthWithin(s, macros, k)
  {
  }

  lemma OneWithin(s: string, macros: Table, k: nat)
    ensures AllWithin([s], macros, k) == DepthWithin(s, macros, k)
  {
    hide DepthWithin;
    assert [s][0] == s;
  }

  lemma ConcatWithin(a: seq<string>, b: seq<string>, macros: Table, k: nat)
    ensures AllWithin(a + b, macros, k) <==> AllWithin(a, macros, k) && AllWithin(b, macros, k)
    ensures AllSupplied(a, macros) && AllSupplied(b, macros) ==> AllSupplied(a + b, macros)
    ensures NoCalls(a + b, macros) <==> NoCalls(a, macros) && NoCalls(b, macros)
  {
    hide DepthWithin, Supplied, IsCall;
    assert forall i | 0 <= i < |a| :: (a + b)[i] == a[i];
    assert forall i | 0 <= i < |b| :: (a + b)[|a| + i] == b[i];
  }

  lemma NoCallsWithin(lines: seq<string>, macros: Table, k: nat)
    ensures NoCalls(lines, macros) ==> AllWithin(lines, macros, k)
    ensures k == 0 && AllWithin(lines, macros, k) ==> NoCalls(lines, macros)
  {
    hide IsCall;
  }

  /** With `fuel` passes, expansion succeeds exactly when the calls are at most fuel - 1 deep, and the
      only failure is the one for non-termination. */
  lemma {:induction false} PassesSucceedIff(lines: seq<string>, macros: Table, c: nat, fuel: nat)
    requires TableOk(macros) && AllSupplied(lines, macros) && fuel > 0
    ensures Passes(lines, macros, c, fuel).Success? <==> AllWithin(lines, macros, fuel - 1)
    ensures Passes(lines, macros, c, fuel).Failure? ==> Passes(lines, macros, c, fuel) == Failure(NoFixedPoint)
    decreases fuel
  {
    hide OnePass, AllWithin, AllSupplied, TableOk, NoCalls;
    var k: nat := if fuel > 1 then fuel - 2 else 0;
    PassExact(lines, macros, c, 1, k);
    NoCallsWithin(lines, macros, fuel - 1);
    var p := OnePass(lines, macros, c, 1).value;
    if p.expanded && fuel > 1 {
      PassesSucceedIff(p.lines, macros, p.counter, fuel - 1);
    }
  }

  /** `expand_macros` on literal-headed, fully supplied macros: success exactly up to depth 63. */
  lemma ExpandSucceedsIff(source: seq<string>)
    requires ParseDefs(source, 1).Success?
    requires TableOk(ParseDefs(source, 1).value.0) &&
             AllSupplied(ParseDefs(source, 1).value.1, ParseDefs(source, 1).value.0)
    ensures var (macros, lines) := ParseDefs(source, 1).value;
            && (Expand(source).Success? <==> AllWithin(lines, macros, 63))
            && (Expand(source).Failure? ==> Expand(source) == Failure(NoFixedPoint))
  {
    hide Passes, AllWithin, TableOk, AllSupplied;
    var p := ParseDefs(source, 1).value;
    PassesSucceedIff(p.1, p.0, 0, MAX_PASSES);
  }
}
