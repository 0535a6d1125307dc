/** What substituting macro arguments into a line does to its local labels. */
module Substitution {
  import opened Wrappers
  import opened Macros
  import opened MacroProofs
  import opened LocalLabels

  // ---- a scanner for local labels ----

  /** Where the search for `~@name` stands. */
  datatype Scan = Out | Tilde | Mark | Name(x: string)

  function FeedOut(c: char): Scan {
    if c == '~' then Tilde else Out
  }

  function Feed(q: Scan, c: char): Scan {
    match q
    case Out => FeedOut(c)
    case Tilde => if c == '@' then Mark else FeedOut(c)
    case Mark => if IsWordStart(c) then Name([c]) else FeedOut(c)
    case Name(x) => if IsWordChar(c) then Name(x + [c]) else FeedOut(c)
  }

  /** The label that ends here. */
  function Ending(q: Scan): seq<string> {
    if q.Name? then [q.x] else []
  }

  /** Labels found from a state on. */
  function Labels(q: Scan, s: string): seq<string>
    decreases |s|
  {
    if s == [] then Ending(q)
    else (if q.Name? && IsWordChar(s[0]) then [] else Ending(q)) + Labels(Feed(q, s[0]), s[1..])
  }

  /** The text begins, completes or extends a label the scanner is in. */
  predicate Opens(q: Scan, s: string) {
    match q
    case Out => false
    case Tilde => |s| >= 2 && s[0] == '@' && IsWordStart(s[1])
    case Mark => s != [] && IsWordStart(s[0])
    case Name(_) => s != [] && IsWordChar(s[0])
  }

  lemma {:induction false} NameRuns(x: string, s: string)
    ensures Labels(Name(x), s) == [x + s[..WordLen(s)]] + Labels(Out, s[WordLen(s)..])
    ensures Labels(Out, s[WordLen(s)..]) == Labels(Out, s)
    decreases |s|
  {
    if s == [] {
      assert x + [] == x;
    } else if IsWordChar(s[0]) {
      NameRuns(x + [s[0]], s[1..]);
      NameRuns([], s[1..]);
      OneMore(x, s, WordLen(s[1..]));
    } else {
      assert x + s[..0] == x && s[0..] == s;
    }
  }

  lemma OneMore(x: string, s: string, n: nat)
    requires n < |s|
    ensures x + [s[0]] + s[1..][..n] == x + s[..n + 1] && s[1..][n..] == s[n + 1..]
  {
  }

  /** The scanner finds the local labels. */
  lemma {:induction false} LabelsAre(s: string)
    ensures Labels(Out, s) == Locals(s)
    decreases |s|
  {
    hide WordLen;
    if s == [] {
    } else if LocalHere(s) {
      var n := 2 + WordLen(s[2..]);
      LocalRuns(s, n);
      LabelsAre(s[n..]);
    } else {
      LabelsAre(s[1..]);
      if s[0] == '~' {
        TildeRuns(s[1..]);
      }
    }
  }

  lemma TildeRuns(s: string)
    requires !(|s| >= 2 && s[0] == '@' && IsWordStart(s[1]))
    ensures Labels(Tilde, s) == Labels(Out, s)
  {
    if s != [] && s[0] == '@' && s[1..] != [] {
      assert s[1..][0] == s[1];
    }
  }

  lemma LocalRuns(s: string, n: nat)
    requires LocalHere(s) && n == 2 + WordLen(s[2..])
    ensures n > 2 && Labels(Out, s) == [s[2..n]] + Labels(Out, s[n..])
  {
    var u := s[2..];
    assert s == ['~', '@'] + u && u != [] && IsWordStart(u[0]);
    hide LocalHere, Labels, WordLen;
    MarkRuns(u);
    OpenedRuns(u);
    DropTwo(s, WordLen(u));
  }

  lemma DropTwo(s: string, k: nat)
    requires 2 + k <= |s|
    ensures s[2 + k..] == s[2..][k..] && s[2..2 + k] == s[2..][..k]
  {
  }

  /** `~@` takes the scanner to the mark. */
  lemma OpenedRuns(u: string)
    ensures Labels(Out, ['~', '@'] + u) == Labels(Mark, u)
  {
    assert (['~', '@'] + u)[1..] == ['@'] + u && (['@'] + u)[1..] == u;
    assert Labels(Out, ['~', '@'] + u) == Labels(Tilde, ['@'] + u);
  }

  lemma MarkRuns(u: string)
    requires u != [] && IsWordStart(u[0])
    ensures WordLen(u) > 0 && Labels(Mark, u) == [u[..WordLen(u)]] + Labels(Out, u[WordLen(u)..])
  {
    assert Labels(Mark, u) == Labels(Name([u[0]]), u[1..]);
    assert WordLen(u) == 1 + WordLen(u[1..]);
    hide Labels, WordLen;
    NameRuns([u[0]], u[1..]);
    assert [u[0]] + u[1..][..WordLen(u[1..])] == u[..WordLen(u)];
    assert u[1..][WordLen(u[1..])..] == u[WordLen(u)..];
  }

  // ---- how much label text there is ----

  function Weight(names: seq<string>): nat {
    if names == [] then 0 else 1 + |names[0]| + Weight(names[1..])
  }

  lemma {:induction false} WeightConcat(a: seq<string>, b: seq<string>)
    ensures Weight(a + b) == Weight(a) + Weight(b)
  {
    if a == [] {
      assert a + b == b;
    } else {
      assert (a + b)[1..] == a[1..] + b;
      WeightConcat(a[1..], b);
    }
  }

  /** A state the text does not open is forgotten; one that it opens leaves more label text. */
  lemma StateMatters(q: Scan, s: string)
    ensures !Opens(q, s) ==> Labels(q, s) == Ending(q) + Labels(Out, s)
    ensures Opens(q, s) ==> Weight(Labels(q, s)) > Weight(Ending(q)) + Weight(Labels(Out, s))
  {
    if q.Name? {
      NameRuns(q.x, s);
      WeightConcat([q.x + s[..WordLen(s)]], Labels(Out, s[WordLen(s)..]));
    } else if q.Mark? && Opens(q, s) {
      MarkOpens(s);
    } else if q.Tilde? && Opens(q, s) {
      assert s[1..][0] == s[1];
      assert Labels(Tilde, s) == Labels(Mark, s[1..]) && Labels(Out, s) == Labels(Out, s[1..]);
      MarkOpens(s[1..]);
    } else if q.Tilde? {
      TildeRuns(s);
    }
  }

  lemma MarkOpens(s: string)
    requires s != [] && IsWordStart(s[0])
    ensures Weight(Labels(Mark, s)) > Weight(Labels(Out, s))
  {
    MarkRuns(s);
    hide Labels, WordLen;
    NameRuns([], s);
    WeightConcat([s[..WordLen(s)]], Labels(Out, s[WordLen(s)..]));
  }

  // ---- text without labels ----

  /** The text holds no `~@`. */
  predicate Unmarked(v: string) {
    forall i | 0 <= i < |v| - 1 :: !(v[i] == '~' && v[i + 1] == '@')
  }

  /** Where a text without `~@` leaves the scanner. */
  function Final(v: string): Scan {
    if v != [] && v[|v| - 1] == '~' then Tilde else Out
  }

  lemma {:induction false} UnmarkedRuns(q: Scan, v: string, r: string)
    requires Unmarked(v) && (q == Out || (q == Tilde && v != [] && v[0] != '@'))
    ensures Labels(q, v + r) == if v == [] then Labels(q, r) else Labels(Final(v), r)
    decreases |v|
  {
    if v == [] {
      assert v + r == r;
    } else {
      assert (v + r)[0] == v[0] && (v + r)[1..] == v[1..] + r;
      if v[1..] == [] {
        assert v[1..] + r == r;
      } else {
        assert v[0] == '~' ==> v[1] != '@';
        assert v[1..][0] == v[1];
        UnmarkedRuns(Feed(q, v[0]), v[1..], r);
      }
    }
  }

  // ---- one replacement ----

  /** No place where the argument is put makes it part of a label with what stands around it: the text before
      does not open a label that the argument continues, nor the argument one that the text behind continues. */
  predicate Calm(q: Scan, s: string, pat: string, v: string)
    requires pat != []
    decreases |s|
  {
    if s == [] then true
    else if pat <= s then
      var r := Replace(s[|pat|..], pat, v);
      !Opens(q, v + r) && !Opens(Final(v), r) && Calm(Out, s[|pat|..], pat, v)
    else Calm(Feed(q, s[0]), s[1..], pat, v)
  }

  /** A parameter reference ends every label before it and starts none. */
  lemma ReferenceRuns(q: Scan, pat: string, rest: string)
    requires pat != [] && pat[0] == '$' && '~' !in pat
    ensures Labels(q, pat + rest) == Ending(q) + Labels(Out, rest)
  {
    hide Labels;
    StateMatters(q, pat + rest);
    UnmarkedRuns(Out, pat, rest);
  }

  lemma ArgumentRuns(q: Scan, v: string, r: string)
    requires Unmarked(v)
    ensures !Opens(q, v + r) && !Opens(Final(v), r) ==> Labels(q, v + r) == Ending(q) + Labels(Out, r)
    ensures Weight(Labels(q, v + r)) >= Weight(Ending(q)) + Weight(Labels(Out, r))
    ensures Opens(q, v + r) || Opens(Final(v), r) ==>
              Weight(Labels(q, v + r)) > Weight(Ending(q)) + Weight(Labels(Out, r))
  {
    hide *;
    StateMatters(q, v + r);
    UnmarkedRuns(Out, v, r);
    StateMatters(Final(v), r);
    FinalEnds(v, r);
    WeightConcat(Ending(q), Labels(Out, v + r));
    WeightConcat(Ending(Final(v)), Labels(Out, r));
  }

  lemma FinalEnds(v: string, r: string)
    ensures Ending(Final(v)) == [] && Weight([]) == 0 && [] + Labels(Out, r) == Labels(Out, r)
    ensures v == [] ==> Final(v) == Out && v + r == r && !Opens(Out, r)
  {
  }

  /** Replacing a reference by an argument without `~@` keeps the labels of a line exactly when it is calm;
      otherwise label text is gained. */
  lemma {:induction false} ReplaceLabels(q: Scan, s: string, pat: string, v: string)
    requires pat != [] && pat[0] == '$' && '~' !in pat && Unmarked(v)
    ensures Calm(q, s, pat, v) ==> Labels(q, Replace(s, pat, v)) == Labels(q, s)
    ensures Weight(Labels(q, Replace(s, pat, v))) >= Weight(Labels(q, s))
    ensures !Calm(q, s, pat, v) ==> Weight(Labels(q, Replace(s, pat, v))) > Weight(Labels(q, s))
    decreases |s|
  {
    hide Opens, Feed, Final;
    if s == [] {
    } else if pat <= s {
      var rest := s[|pat|..];
      var r := Replace(rest, pat, v);
      assert s == pat + rest;
      ReplaceLabels(Out, rest, pat, v);
      ReferenceRuns(q, pat, rest);
      ArgumentRuns(q, v, r);
      WeightConcat(Ending(q), Labels(Out, rest));
    } else {
      var t := [s[0]] + Replace(s[1..], pat, v);
      ReplaceLabels(Feed(q, s[0]), s[1..], pat, v);
      assert t[0] == s[0] && t[1..] == Replace(s[1..], pat, v);
      var first := if q.Name? && IsWordChar(s[0]) then [] else Ending(q);
      WeightConcat(first, Labels(Feed(q, s[0]), s[1..]));
      WeightConcat(first, Labels(Feed(q, s[0]), t[1..]));
    }
  }

  // ---- all arguments ----

  /** Arguments hold no `~@`, and parameter names no tilde. */
  predicate Harmless(b: seq<(string, string)>) {
    forall i | 0 <= i < |b| :: Unmarked(b[i].1) && '~' !in b[i].0
  }

  /** Every replacement, one name after the other, is calm. */
  predicate CalmLine(s: string, b: seq<(string, string)>)
    decreases |b|
  {
    b == [] || (Calm(Out, s, "$" + b[0].0, b[0].1) && CalmLine(Replace(s, "$" + b[0].0, b[0].1), b[1..]))
  }

  lemma {:induction false} SubstituteWeight(s: string, b: seq<(string, string)>)
    requires Harmless(b)
    ensures CalmLine(s, b) ==> Labels(Out, Substitute(s, b)) == Labels(Out, s)
    ensures Weight(Labels(Out, Substitute(s, b))) >= Weight(Labels(Out, s))
    ensures !CalmLine(s, b) ==> Weight(Labels(Out, Substitute(s, b))) > Weight(Labels(Out, s))
    decreases |b|
  {
    hide Labels, Weight, Calm, Replace;
    if b != [] {
      var pat := "$" + b[0].0;
      assert pat[0] == '$';
      ReplaceLabels(Out, s, pat, b[0].1);
      SubstituteWeight(Replace(s, pat, b[0].1), b[1..]);
    }
  }

  /** With arguments that hold no `~@`, the substituted line has exactly the local labels of the line in the
      definition if and only if no argument touches label text. */
  lemma SubstitutedLabelsIff(s: string, b: seq<(string, string)>)
    requires Harmless(b)
    ensures Locals(Substitute(s, b)) == Locals(s) <==> CalmLine(s, b)
  {
    hide Labels, Weight, Substitute, CalmLine, Locals;
    SubstituteWeight(s, b);
    LabelsAre(s);
    LabelsAre(Substitute(s, b));
  }

  // ---- arguments that do hold local labels ----

  lemma LocalsUnfold(s: string)
    ensures s == [] ==> Locals(s) == []
    ensures s != [] && LocalHere(s) ==>
              var n := 2 + WordLen(s[2..]); 2 < n <= |s| && Locals(s) == [s[2..n]] + Locals(s[n..])
    ensures s != [] && !LocalHere(s) ==> Locals(s) == Locals(s[1..])
  {
  }

  lemma {:induction false} RenameLength(s: string, suffix: string)
    ensures |Rename(s, suffix)| == |s| + |suffix| * |Locals(s)|
    ensures Locals(s) == [] ==> Rename(s, suffix) == s
    decreases |s|
  {
    hide WordLen, Rename, Locals, LocalHere;
    LocalsUnfold(s);
    if s == [] {
      EmptyRename(suffix);
    } else if LocalHere(s) {
      var n := 2 + WordLen(s[2..]);
      RenameLocal(s, suffix, n);
      RenameLength(s[n..], suffix);
    } else {
      RenameOther(s, suffix);
      RenameLength(s[1..], suffix);
      assert [s[0]] + s[1..] == s;
    }
  }

  /** The renaming of a call leaves an argument's text as the caller wrote it exactly when it holds no local label. */
  lemma ArgumentKeptIff(v: string, suffix: string)
    requires suffix != []
    ensures Rename(v, suffix) == v <==> Locals(v) == []
  {
    hide Rename, Locals;
    RenameLength(v, suffix);
    if Locals(v) != [] {
      assert |suffix| * |Locals(v)| > 0;
    }
  }

  /** One character of the scan. */
  lemma LabelsCons(q: Scan, c: char, rest: string)
    ensures Labels(q, [c] + rest) == (if q.Name? && IsWordChar(c) then [] else Ending(q)) + Labels(Feed(q, c), rest)
  {
    assert ([c] + rest)[0] == c && ([c] + rest)[1..] == rest;
    hide Feed, Ending;
  }

  lemma Regrouped(a: string, z: string)
    requires a != []
    ensures a == [a[0]] + a[1..] && a + z == [a[0]] + (a[1..] + z)
  {
  }

  /** Text up to a point, then text that its state does not open. */
  lemma {:induction false} LabelsConcat(q: Scan, a: string, z: string)
    requires !Opens(After(q, a), z)
    ensures Labels(q, a + z) == Labels(q, a) + Labels(Out, z)
    decreases |a|
  {
    if a == [] {
      assert a + z == z;
      hide Opens;
      StateMatters(q, z);
    } else {
      hide Opens, Labels, Feed, Ending;
      Regrouped(a, z);
      LabelsCons(q, a[0], a[1..] + z);
      LabelsCons(q, a[0], a[1..]);
      var q' := Feed(q, a[0]);
      assert After(q, a) == After(q', a[1..]);
      hide After;
      LabelsConcat(q', a[1..], z);
      Assoc(if q.Name? && IsWordChar(a[0]) then [] else Ending(q), Labels(q', a[1..]), Labels(Out, z));
    }
  }

  lemma Assoc(x: seq<string>, y: seq<string>, z: seq<string>)
    ensures x + (y + z) == x + y + z
  {
  }

  /** The scanner's state after a text. */
  function After(q: Scan, a: string): Scan
    decreases |a|
  {
    if a == [] then q else After(Feed(q, a[0]), a[1..])
  }

  /** A local label in an argument, put into a line of call n apart from other label text: the expanded line
      refers to it with the call's suffix, which is never the name the caller gave it. */
  lemma PassedLabel(a: string, v: string, z: string, n: nat, k: nat)
    requires k < |Locals(v)| && !Opens(After(Out, a), v + z) && !Opens(After(Out, v), z)
    ensures Locals(a + v + z) == Locals(a) + Locals(v) + Locals(z)
    ensures var out, i := Locals(Rename(a + v + z, Suffix(n))), |Locals(a)| + k;
            i < |out| && out[i] == Locals(v)[k] + Suffix(n) && out[i] != Locals(v)[k]
  {
    hide Locals, Labels, Opens, Rename, Suffix;
    assert a + v + z == a + (v + z);
    LabelsConcat(Out, a, v + z);
    LabelsConcat(Out, v, z);
    LabelsAre(a);
    LabelsAre(v);
    LabelsAre(z);
    LabelsAre(a + v + z);
    SuffixIsWord(n);
    RenamedLocals(a + v + z, Suffix(n));
    assert Locals(a + v + z)[|Locals(a)| + k] == Locals(v)[k];
  }
}
