/** Local labels: the suffix an expansion gives them, and the final renaming of the whole source. */
module LocalLabels {
  import opened Wrappers
  import opened Regs
  import opened Macros
  import opened MacroProofs

  /** The names of the `~@name` occurrences, in order. */
  function Locals(s: string): seq<string>
    decreases |s|
  {
    if s == [] then []
    else if LocalHere(s) then
      var n := 2 + WordLen(s[2..]);
      [s[2..n]] + Locals(s[n..])
    else Locals(s[1..])
  }

  function Suffixed(names: seq<string>, suffix: string): seq<string> {
    seq(|names|, i requires 0 <= i < |names| => names[i] + suffix)
  }

  predicate WordOnly(s: string) {
    forall i | 0 <= i < |s| :: IsWordChar(s[i])
  }

  // ---- decimal numbers ----

  predicate DigitsOnly(s: string) {
    forall i | 0 <= i < |s| :: '0' <= s[i] <= '9'
  }

  lemma {:induction false} DecimalDigits(n: nat)
    ensures Decimal(n) != [] && DigitsOnly(Decimal(n))
  {
    if n >= 10 {
      DecimalDigits(n / 10);
    }
  }

  lemma {:induction false} DecimalInjective(a: nat, b: nat)
    requires Decimal(a) == Decimal(b)
    ensures a == b
  {
    DecimalDigits(a / 10);
    DecimalDigits(b / 10);
    var s, t := Decimal(a), Decimal(b);
    if a >= 10 && b >= 10 {
      assert s[..|s| - 1] == Decimal(a / 10) && t[..|t| - 1] == Decimal(b / 10);
      assert s[|s| - 1] == Digit(a % 10) && t[|t| - 1] == Digit(b % 10);
      DecimalInjective(a / 10, b / 10);
    }
  }

  lemma SuffixIsWord(n: nat)
    ensures WordOnly(Suffix(n)) && |Suffix(n)| > 3
  {
    DecimalDigits(n);
  }

  /** A name with a call number determines both. */
  lemma SuffixInjective(a: string, p: nat, b: string, q: nat)
    requires a + Suffix(p) == b + Suffix(q)
    ensures a == b && p == q
  {
    hide Decimal;
    DecimalDigits(p);
    DecimalDigits(q);
    var x, y := Decimal(p), Decimal(q);
    var s := a + Suffix(p);
    NotLonger(a, x, b, y);
    NotLonger(b, y, a, x);
    assert s[..|s| - |x| - 3] == a && s[..|s| - |y| - 3] == b;
    assert s[|s| - |x|..] == x && s[|s| - |y|..] == y;
    DecimalInjective(p, q);
  }

  /** The mark stands right before the digits, so the longer number would have a letter in it. */
  lemma NotLonger(a: string, x: string, b: string, y: string)
    requires a + ("__m" + x) == b + ("__m" + y) && DigitsOnly(x) && DigitsOnly(y)
    ensures |x| <= |y|
  {
    if |x| > |y| {
      MarkInside(a, x, b, y);
    }
  }

  lemma MarkInside(a: string, x: string, b: string, y: string)
    requires a + ("__m" + x) == b + ("__m" + y) && |x| > |y|
    ensures x[|x| - |y| - 1] == 'm'
  {
    var s := a + ("__m" + x);
    assert s[|a| + 3 + (|x| - |y| - 1)] == x[|x| - |y| - 1];
    assert s[|b| + 2] == 'm';
  }

  // ---- renaming and labels ----

  lemma {:induction false} RenameHead(s: string, suffix: string)
    ensures |Rename(s, suffix)| >= |s|
    ensures s != [] ==> Rename(s, suffix)[0] == s[0]
    decreases |s|
  {
    if s != [] {
      RenameHead(if LocalHere(s) then s[2 + WordLen(s[2..])..] else s[1..], suffix);
    }
  }

  /** The first two characters survive. */
  lemma RenameHeads(s: string, suffix: string)
    ensures |Rename(s, suffix)| >= |s|
    ensures s != [] ==> Rename(s, suffix)[0] == s[0]
    ensures |s| > 1 ==> Rename(s, suffix)[1] == s[1]
    ensures |s| == 1 ==> Rename(s, suffix) == s
  {
    RenameHead(s, suffix);
    if |s| > 0 && !LocalHere(s) {
      RenameHead(s[1..], suffix);
      assert Rename(s, suffix)[1..] == Rename(s[1..], suffix);
    }
  }

  lemma {:induction false} WordLenOver(w: string, r: string)
    requires WordOnly(w) && (r == [] || !IsWordChar(r[0]))
    ensures WordLen(w + r) == |w|
  {
    if w == [] {
      assert w + r == r;
    } else {
      assert (w + r)[1..] == w[1..] + r;
      WordLenOver(w[1..], r);
    }
  }

  /** Renaming gives every local label of the text the suffix, and creates no other label. */
  lemma {:induction false} RenamedLocals(s: string, suffix: string)
    requires WordOnly(suffix)
    ensures Locals(Rename(s, suffix)) == Suffixed(Locals(s), suffix)
    decreases |s|
  {
    hide WordLen, Rename, WordOnly;
    if s == [] {
      EmptyRename(suffix);
    } else if LocalHere(s) {
      var n := 2 + WordLen(s[2..]);
      RenameLocal(s, suffix, n);
      RenamedLocals(s[n..], suffix);
      RenamedToken(s, n, suffix);
      assert Locals(s) == [s[2..n]] + Locals(s[n..]);
      SuffixedCons(s[2..n], Locals(s[n..]), suffix);
    } else {
      RenameOther(s, suffix);
      RenamedLocals(s[1..], suffix);
      RenameHeads(s[1..], suffix);
      EmptyRename(suffix);
      var t := [s[0]] + Rename(s[1..], suffix);
      assert t[1..] == Rename(s[1..], suffix);
      assert !LocalHere(t);
      assert Locals(s) == Locals(s[1..]) && Locals(t) == Locals(t[1..]);
    }
  }

  lemma SuffixedCons(x: string, names: seq<string>, suffix: string)
    ensures Suffixed([x] + names, suffix) == [x + suffix] + Suffixed(names, suffix)
  {
  }

  lemma RenamedToken(s: string, n: nat, suffix: string)
    requires WordOnly(suffix) && LocalHere(s) && n == 2 + WordLen(s[2..])
    ensures var t := s[..n] + suffix + Rename(s[n..], suffix);
            Locals(t) == [s[2..n] + suffix] + Locals(Rename(s[n..], suffix))
  {
    var rest := Rename(s[n..], suffix);
    var t := s[..n] + suffix + rest;
    RenameHead(s[n..], suffix);
    assert s[n..] != [] ==> s[n..][0] == s[2..][n - 2];
    if s[n..] == [] {
      assert rest == [];
    }
    var w := s[2..n] + suffix;
    assert t[2..] == w + rest;
    WordLenOver(w, rest);
    assert t[2..2 + |w|] == w && t[2 + |w|..] == rest;
    assert LocalHere(t);
  }

  // ---- expand_local_labels ----

  /** Position of a name in the order of first occurrence. */
  function IndexOf(names: seq<string>, x: string): (i: nat)
    requires x in names
    ensures i < |names| && names[i] == x
  {
    if names[0] == x then 0 else 1 + IndexOf(names[1..], x)
  }

  function FinalName(k: nat, x: string): string {
    "__loc" + Decimal(k) + "_" + x
  }

  /** The scan with the names met so far; the counter is their number. */
  function Relabel(s: string, names: seq<string>): (string, seq<string>)
    decreases |s|
  {
    if s == [] then ([], names)
    else if LocalHere(s) then
      var n := 2 + WordLen(s[2..]);
      var x := s[2..n];
      var known := if x in names then names else names + [x];
      var (out, all) := Relabel(s[n..], known);
      ("~" + FinalName(IndexOf(known, x) + 1, x) + out, all)
    else
      var (out, all) := Relabel(s[1..], names);
      ([s[0]] + out, all)
  }

  /** Replace every `~@x` by `~` and the name a map gives it. */
  function RelabelBy(s: string, m: map<string, string>): string
    decreases |s|
  {
    if s == [] then []
    else if LocalHere(s) then
      var n := 2 + WordLen(s[2..]);
      "~" + NameIn(m, s[2..n]) + RelabelBy(s[n..], m)
    else [s[0]] + RelabelBy(s[1..], m)
  }

  function NameIn(m: map<string, string>, x: string): string {
    if x in m then m[x] else x
  }

  predicate NoRepeats(names: seq<string>) {
    forall i, j | 0 <= i < j < |names| :: names[i] != names[j]
  }

  lemma {:induction false} IndexStable(a: seq<string>, b: seq<string>, x: string)
    requires a <= b && x in a
    ensures IndexOf(b, x) == IndexOf(a, x)
  {
    if a[0] != x {
      assert a[1..] <= b[1..];
      IndexStable(a[1..], b[1..], x);
    }
  }

  /** The names met so far only grow, and are the names of the text. */
  lemma {:induction false} NamesGrow(s: string, names: seq<string>)
    requires NoRepeats(names)
    ensures var all := Relabel(s, names).1;
            && names <= all && NoRepeats(all)
            && (forall x :: x in all <==> x in names || x in Locals(s))
    decreases |s|
  {
    hide WordLen, LocalHere;
    if s == [] {
    } else if LocalHere(s) {
      LocalSize(s);
      var n := 2 + WordLen(s[2..]);
      var x := s[2..n];
      NamesGrow(s[n..], if x in names then names else names + [x]);
    } else {
      NamesGrow(s[1..], names);
    }
  }

  /** The final name of each local label. */
  function FinalNames(names: seq<string>): map<string, string> {
    map x | x in names :: FinalName(IndexOf(names, x) + 1, x)
  }

  /** One step of both scans at a local label. */
  lemma AtLocal(s: string, names: seq<string>, m: map<string, string>, n: nat, x: string, known: seq<string>)
    requires LocalHere(s) && n == 2 + WordLen(s[2..]) && x == s[2..n]
    requires known == if x in names then names else names + [x]
    ensures Relabel(s, names) == ("~" + FinalName(IndexOf(known, x) + 1, x) + Relabel(s[n..], known).0,
            Relabel(s[n..], known).1)
    ensures RelabelBy(s, m) == "~" + NameIn(m, x) + RelabelBy(s[n..], m)
  {
    assert s != [];
    hide FinalName, IndexOf, WordLen, LocalHere;
  }

  lemma AtOther(s: string, names: seq<string>, m: map<string, string>)
    requires s != [] && !LocalHere(s)
    ensures Relabel(s, names) == ([s[0]] + Relabel(s[1..], names).0, Relabel(s[1..], names).1)
    ensures RelabelBy(s, m) == [s[0]] + RelabelBy(s[1..], m)
  {
  }

  lemma AtEnd(names: seq<string>, m: map<string, string>)
    ensures Relabel([], names) == ([], names) && RelabelBy([], m) == []
  {
  }

  lemma {:induction false} RelabelIsMap(s: string, names: seq<string>, all: seq<string>)
    requires NoRepeats(names) && Relabel(s, names).1 <= all
    ensures Relabel(s, names).0 == RelabelBy(s, FinalNames(all))
    decreases |s|
  {
    hide WordLen, FinalName, FinalNames, IndexOf, LocalHere, NoRepeats, Relabel, RelabelBy;
    var m := FinalNames(all);
    if s == [] {
      AtEnd(names, m);
    } else if LocalHere(s) {
      LocalSize(s);
      var n := 2 + WordLen(s[2..]);
      var x := s[2..n];
      var known := if x in names then names else names + [x];
      AtLocal(s, names, m, n, x, known);
      KnownGrows(names, x);
      RelabelIsMap(s[n..], known, all);
      NamesGrow(s[n..], known);
      IndexStable(known, all, x);
      Lookup(all, x);
    } else {
      AtOther(s, names, m);
      RelabelIsMap(s[1..], names, all);
    }
  }

  lemma KnownGrows(names: seq<string>, x: string)
    requires NoRepeats(names)
    ensures x !in names ==> NoRepeats(names + [x])
  {
  }

  /** Counter and name can be read off a final name. */
  lemma FinalNameInjective(i: nat, x: string, j: nat, y: string)
    requires FinalName(i, x) == FinalName(j, y)
    ensures i == j && x == y
  {
    hide Decimal;
    DecimalDigits(i);
    DecimalDigits(j);
    var a, b, s := Decimal(i), Decimal(j), FinalName(i, x);
    NamePieces(a, x, s);
    NamePieces(b, y, s);
    NumberNotLonger(a, x, b, y);
    NumberNotLonger(b, y, a, x);
    assert s[5..5 + |a|] == a && s[5..5 + |b|] == b;
    assert s[6 + |a|..] == x && s[6 + |b|..] == y;
    DecimalInjective(i, j);
  }

  lemma NumberNotLonger(a: string, x: string, b: string, y: string)
    requires "__loc" + a + "_" + x == "__loc" + b + "_" + y && DigitsOnly(a) && DigitsOnly(b)
    ensures |a| <= |b|
  {
    if |a| > |b| {
      UnderscoreInside(a, x, b, y);
    }
  }

  lemma UnderscoreInside(a: string, x: string, b: string, y: string)
    requires "__loc" + a + "_" + x == "__loc" + b + "_" + y && |a| > |b|
    ensures a[|b|] == '_'
  {
    var s := "__loc" + a + "_" + x;
    assert s[5 + |b|] == a[|b|];
    assert s[5 + |b|] == '_';
  }

  lemma NamePieces(d: string, x: string, s: string)
    requires s == "__loc" + d + "_" + x
    ensures |s| == 6 + |d| + |x| && s[5 + |d|] == '_' && s[6 + |d|..] == x
    ensures "__loc" <= s
  {
  }

  /** `expand_local_labels` renames by one injective map whose names all start with `__loc`: different local
      labels stay different, equal ones stay equal, and none meets a user label that does not start so. */
  lemma LocalLabelsInjective(s: string)
    ensures var (out, names) := Relabel(s, []);
            var m := FinalNames(names);
            && (forall x :: x in m <==> x in Locals(s))
            && out == RelabelBy(s, m)
            && (forall x, y | x in m && y in m && m[x] == m[y] :: x == y)
            && (forall x | x in m :: "__loc" <= m[x])
  {
    hide FinalName, Relabel, RelabelBy, Locals, IndexOf;
    NamesGrow(s, []);
    var names := Relabel(s, []).1;
    RelabelIsMap(s, [], names);
    FinalNamesApart(names);
  }

  lemma FinalNamesApart(names: seq<string>)
    ensures var m := FinalNames(names);
            && (forall x, y | x in m && y in m && m[x] == m[y] :: x == y)
            && (forall x | x in m :: "__loc" <= m[x])
  {
    hide FinalName, IndexOf;
    var m := FinalNames(names);
    forall x, y | x in m && y in m && m[x] == m[y]
      ensures x == y
    {
      FinalNameInjective(IndexOf(names, x) + 1, x, IndexOf(names, y) + 1, y);
    }
    forall x | x in m
      ensures "__loc" <= m[x]
    {
      StartsLoc(IndexOf(names, x) + 1, x);
    }
  }

  lemma StartsLoc(k: nat, x: string)
    ensures "__loc" <= FinalName(k, x)
  {
    NamePieces(Decimal(k), x, FinalName(k, x));
  }

  /** One step of the scan. */
  lemma RelabelStep(src: string, i: nat, names: seq<string>)
    requires i < |src|
    ensures var rest := src[i..];
            if LocalHere(rest) then
              var n := 2 + WordLen(rest[2..]);
              var x := rest[2..n];
              var known := if x in names then names else names + [x];
              && i + n <= |src| && n > 0
              && Relabel(rest, names).0 == "~" + FinalName(IndexOf(known, x) + 1, x) + Relabel(src[i + n..], known).0
            else Relabel(rest, names).0 == [src[i]] + Relabel(src[i + 1..], names).0
  {
    hide FinalName, WordLen;
    var rest := src[i..];
    if LocalHere(rest) {
      var n := 2 + WordLen(rest[2..]);
      assert rest[n..] == src[i + n..];
    } else {
      assert rest[1..] == src[i + 1..];
    }
  }

  /** The scanning loop with its counter and its dictionary. */
  method ExpandLocalLabels(src: string) returns (out: string)
    ensures out == Relabel(src, []).0
  {
    hide FinalName, WordLen, Relabel, LocalHere, FinalNames, IndexOf;
    var counter: nat, i: nat := 0, 0;
    var mapping: map<string, string> := map[];
    ghost var names: seq<string> := [];
    out := "";
    NoNames();
    assert src[0..] == src;
    assert out + Relabel(src, []).0 == Relabel(src, []).0;
    while i < |src|
      invariant i <= |src| && counter == |names|
      invariant mapping == FinalNames(names)
      invariant Relabel(src, []).0 == out + Relabel(src[i..], names).0
    {
      var rest := src[i..];
      RelabelStep(src, i, names);
      if LocalHere(rest) {
        LocalSize(rest);
        var n := 2 + WordLen(rest[2..]);
        var x := rest[2..n];
        Lookup(names, x);
        if x !in mapping {
          counter := counter + 1;
          NewName(names, x);
          mapping := mapping[x := FinalName(counter, x)];
          names := names + [x];
        }
        Lookup(names, x);
        ghost var tail := Relabel(src[i + n..], names).0;
        Associate(out, "~" + mapping[x], tail);
        out := out + ("~" + mapping[x]);
        i := i + n;
      } else {
        Associate(out, [rest[0]], Relabel(src[i + 1..], names).0);
        out := out + [rest[0]];
        i := i + 1;
      }
    }
    EmptyScan(names);
    assert src[i..] == "" && out + "" == out;
  }

  lemma LocalSize(s: string)
    requires LocalHere(s)
    ensures |s| >= 3
  {
  }

  lemma Associate(a: string, b: string, c: string)
    ensures a + (b + c) == (a + b) + c
  {
  }

  lemma NoNames()
    ensures FinalNames([]) == map[]
  {
  }

  lemma Lookup(names: seq<string>, x: string)
    ensures x in FinalNames(names) <==> x in names
    ensures x in names ==> FinalNames(names)[x] == FinalName(IndexOf(names, x) + 1, x)
  {
  }

  lemma EmptyScan(names: seq<string>)
    ensures Relabel("", names).0 == ""
  {
  }

  lemma NewName(names: seq<string>, x: string)
    requires x !in names
    ensures FinalNames(names + [x]) == FinalNames(names)[x := FinalName(|names| + 1, x)]
  {
    hide FinalName;
    LastIndex(names, x);
    forall y | y in names
      ensures IndexOf(names + [x], y) == IndexOf(names, y)
    {
      IndexStable(names, names + [x], y);
    }
  }

  lemma {:induction false} LastIndex(names: seq<string>, x: string)
    requires x !in names
    ensures IndexOf(names + [x], x) == |names|
  {
    if names != [] {
      assert (names + [x])[1..] == names[1..] + [x];
      LastIndex(names[1..], x);
    }
  }
}
