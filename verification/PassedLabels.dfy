/** A local label passed as a macro argument, in a three-line program run through the whole expansion. */
module PassedLabels {
  import opened Wrappers
  import opened Regs
  import opened Macros
  import opened MacroProofs
  import opened LocalLabels
  import opened Substitution
  import opened ExpansionLabels

  /** A macro that jumps to its parameter, a call with a local label, and the label's definition. */
  const PASSING: seq<string> := ["macro:j t\n", "goto $t\n", "end:macro\n", "j ~@done\n", "~@done\n"]
  const PASSED: seq<string> := ["goto ~@done__m1\n", "~@done\n"]
  const JUMPS: Table := map["j" := Macro(["t"], ["goto $t\n"])]

  lemma DefinitionRead()
    ensures Definition("macro:j t\n") == Some(("j", ["t"]))
  {
    var u, v := "macro:j t\n", "j t\n";
    assert u[6..] == v && v[1..] == " t\n" && v[..1] == "j";
    assert StripLeft(u) == u && StripLeft(v) == v;
    assert WordLen(v) == 1 by { assert WordLen(" t\n") == 0; }
    assert StripLeft(" t\n") == "t\n" by { assert " t\n"[1..] == "t\n"; }
    hide StripLeft, WordLen;
    assert Words(" t\n") == ["t"] by { WordsRead(); }
  }

  lemma WordsRead()
    ensures Words(" t\n") == ["t"]
  {
    assert " t\n"[1..] == "t\n" && "t\n"[1..] == "\n" && "\n"[1..] == "";
    assert RunLen("t\n") == 1 by { assert RunLen("\n") == 0; }
    assert "t\n"[..1] == "t";
    assert Words("\n") == [] by { assert Words("") == []; }
    assert Words("t\n") == ["t"];
  }

  lemma NotDefinitions()
    ensures Definition("j ~@done\n") == None && Definition("~@done\n") == None
  {
    assert StripLeft("j ~@done\n") == "j ~@done\n" && StripLeft("~@done\n") == "~@done\n";
    assert "macro:"[0] == 'm';
  }

  lemma EndRead()
    ensures IsEnd("end:macro\n") && !IsEnd("goto $t\n")
  {
    assert StripLeft("end:macro\n") == "end:macro\n" && StripLeft("goto $t\n") == "goto $t\n";
    assert "end:macro\n"[9..] == "\n" && "\n"[1..] == "";
    assert AllBlank("");
    assert AllBlank("\n");
    assert "end:macro\n"[..9] == "end:macro";
    assert "end:macro"[0] == 'e';
  }

  lemma PlainParsed(line: string, rest: seq<string>, at: nat)
    requires Definition(line).None?
    ensures ParseDefs([line] + rest, at) ==
            (match ParseDefs(rest, at + 1)
             case Failure(e) => Failure(e)
             case Success(p) => Success((p.0, [line] + p.1)))
  {
    hide Definition;
    assert ([line] + rest)[1..] == rest;
  }

  lemma BodyTaken(line: string, rest: seq<string>)
    requires !IsEnd(line)
    ensures TakeBody([line] +
            rest) == (match TakeBody(rest) case None => None case Some(p) => Some(([line] + p.0, p.1)))
  {
    hide IsEnd;
    assert ([line] + rest)[1..] == rest;
  }

  lemma PassingParsed()
    ensures ParseDefs(PASSING, 1) == Success((JUMPS, ["j ~@done\n", "~@done\n"]))
  {
    hide Definition, IsEnd;
    DefinitionRead();
    NotDefinitions();
    EndRead();
    var top := ["j ~@done\n", "~@done\n"];
    PlainParsed("~@done\n", [], 5);
    PlainParsed("j ~@done\n", ["~@done\n"], 4);
    assert ["~@done\n"] + [] == ["~@done\n"] && ["j ~@done\n"] + ["~@done\n"] == top;
    assert ParseDefs(top, 4) == Success((map[], top));
    var tail := ["end:macro\n"] + top;
    assert tail[1..] == top;
    assert TakeBody(tail) == Some(([], top));
    BodyTaken("goto $t\n", tail);
    assert ["goto $t\n"] + [] == ["goto $t\n"];
    assert PASSING[1..] == ["goto $t\n"] + tail;
    assert map["j" := Macro(["t"], ["goto $t\n"])] + map[] == JUMPS;
  }

  lemma CallRead()
    ensures ParseLine("j ~@done\n") == WithArgs("j", ["~@done"])
  {
    var s, t := "j ~@done\n", " ~@done\n";
    assert s[..1] == "j" && s[1..] == t && t[1..] == "~@done\n";
    assert StripLeft(s) == s;
    assert RunLen(s) == 1 by { assert RunLen(t) == 0; }
    assert FirstWord(s) == ("j", t);
    assert IsIdent("j");
    FieldsRead();
    hide StripLeft, RunLen, FirstWord, IsIdent, Fields;
    assert !AllBlank(t) by { assert !AllBlank("~@done\n"); }
    assert !NewlineInside(t, false) by { TailOneLine(); }
  }

  lemma TailOneLine()
    ensures !NewlineInside(" ~@done\n", false)
  {
    NoNewline(" ~@done", "\n", false);
    assert " ~@done" + "\n" == " ~@done\n";
    assert "\n"[1..] == "";
    assert AllBlank("") && !NewlineInside("", true) && !NewlineInside("", false);
  }

  lemma {:induction false} NoNewline(a: string, b: string, seen: bool)
    requires '\n' !in a && !NewlineInside(b, true) && !NewlineInside(b, false)
    ensures !NewlineInside(a + b, seen)
    decreases |a|
  {
    hide AllBlank;
    if a == [] {
      assert a + b == b;
    } else {
      assert (a + b)[0] == a[0] && (a + b)[1..] == a[1..] + b;
      NoNewline(a[1..], b, seen || !IsBlank(a[0]));
    }
  }

  lemma FieldsRead()
    ensures Fields(" ~@done\n") == ["~@done"]
  {
    var t, w := " ~@done\n", "~@done\n";
    assert t[1..] == w;
    FieldLenOver("~@done", "\n");
    assert "~@done" + "\n" == w && w[..6] == "~@done" && w[6..] == "\n" && "\n"[1..] == "";
    assert Fields("") == [];
    assert Fields("\n") == [];
    assert Fields(w) == ["~@done"];
  }

  lemma {:induction false} FieldLenOver(a: string, b: string)
    requires (forall i | 0 <= i < |a| :: !IsSep(a[i])) && (b == [] || IsSep(b[0]))
    ensures FieldLen(a + b) == |a|
  {
    if a == [] {
      assert a + b == b;
    } else {
      assert (a + b)[1..] == a[1..] + b;
      FieldLenOver(a[1..], b);
    }
  }

  lemma BodyRead()
    ensures Instance(WithArgs("j", ["~@done"]), JUMPS) == Some(["goto ~@done\n"])
  {
    assert JUMPS["j"] == Macro(["t"], ["goto $t\n"]);
    assert ["t"][..0] == [];
    assert Bindings(["t"], ["~@done"]) == [("t", "~@done")];
    ArgumentPlaced();
    hide Substitute;
    assert SubstituteBody(["goto $t\n"], [("t", "~@done")]) == ["goto ~@done\n"];
  }

  lemma ArgumentPlaced()
    ensures Substitute("goto $t\n", [("t", "~@done")]) == "goto ~@done\n"
  {
    ReferenceReplaced();
    assert "$" + "t" == "$t" && [("t", "~@done")][1..] == [];
    hide Replace;
    assert Substitute("goto ~@done\n", []) == "goto ~@done\n";
  }

  lemma ReferenceReplaced()
    ensures Replace("goto $t\n", "$t", "~@done") == "goto ~@done\n"
  {
    var pat, v := "$t", "~@done";
    ReplaceBefore("goto ", "$t\n", pat, v);
    assert "goto " + "$t\n" == "goto $t\n";
    assert "$t\n"[2..] == "\n" && pat <= "$t\n" && "\n"[1..] == "";
    assert Replace("\n", pat, v) == "\n" by { assert Replace("", pat, v) == "" && !(pat <= "\n"); }
    assert Replace("$t\n", pat, v) == v + "\n";
    assert "goto " + (v + "\n") == "goto ~@done\n";
  }

  lemma {:induction false} ReplaceBefore(a: string, b: string, pat: string, v: string)
    requires pat != [] && pat[0] !in a
    ensures Replace(a + b, pat, v) == a + Replace(b, pat, v)
    decreases |a|
  {
    if a == [] {
      assert a + b == b;
    } else {
      assert (a + b)[0] == a[0] && (a + b)[1..] == a[1..] + b;
      ReplaceBefore(a[1..], b, pat, v);
    }
  }

  lemma NewlineRead(suffix: string)
    ensures Locals("\n") == [] && Rename("\n", suffix) == "\n"
  {
    hide Locals, Rename;
    assert "\n"[1..] == "";
    LocalsUnfold("\n");
    LocalsUnfold("");
    RenameOther("\n", suffix);
    EmptyRename(suffix);
  }

  /** A label at the start of a line. */
  lemma LabelRead(x: string, suffix: string)
    requires x != [] && IsWordStart(x[0]) && WordOnly(x)
    ensures var u := "~@" + x + "\n"; Locals(u) == [x] && Rename(u, suffix) == "~@" + x + suffix + "\n"
  {
    hide Locals, Rename, WordLen;
    var u := "~@" + x + "\n";
    WordLenOver(x, "\n");
    assert u[2..] == x + "\n" && u[2..2 + |x|] == x && u[2 + |x|..] == "\n" && u[..2 + |x|] == "~@" + x;
    assert u[0] == '~' && u[1] == '@' && u[2] == x[0];
    LocalsUnfold(u);
    NewlineRead(suffix);
    RenameLocal(u, suffix, 2 + |x|);
    assert [x] + [] == [x];
  }

  lemma LabelRenamed()
    ensures Rename("goto ~@done\n", "__m1") == "goto ~@done__m1\n"
    ensures Locals("goto ~@done__m1\n") == ["done__m1"] && Locals("~@done\n") == ["done"]
  {
    hide Locals, Rename;
    LabelRead("done", "__m1");
    LabelRead("done__m1", "");
    assert "~@" + "done" + "\n" == "~@done\n";
    assert "~@" + "done" + "__m1" + "\n" == "~@done__m1\n" == "~@" + "done__m1" + "\n";
    PlainBefore("goto ", "~@done\n", "__m1");
    PlainBefore("goto ", "~@done__m1\n", "");
    assert "goto " + "~@done\n" == "goto ~@done\n";
    assert "goto " + "~@done__m1\n" == "goto ~@done__m1\n";
  }

  lemma JumpsOnly(n: string)
    ensures n in JUMPS ==> |n| == 1
  {
  }

  lemma NotCalls()
    ensures !IsCall("goto ~@done__m1\n", JUMPS) && !IsCall("~@done\n", JUMPS)
  {
    hide ParseLine, FirstWord, TailKind, IsIdent, JUMPS;
    assert "goto" + " ~@done__m1\n" == "goto ~@done__m1\n" && "~@done" + "\n" == "~@done\n";
    HeadRead("goto", " ~@done__m1\n");
    HeadRead("~@done", "\n");
    JumpsOnly("goto");
    JumpsOnly("~@done");
  }

  lemma HeadRead(w: string, t: string)
    requires w != [] && (forall i | 0 <= i < |w| :: !IsBlank(w[i])) && t != [] && IsBlank(t[0])
    ensures FirstWord(w + t) == (w, t)
    ensures ParseLine(w + t) == if IsIdent(w) then TailKind(w, t) else Plain
    ensures !ParseLine(w + t).Plain? ==> ParseLine(w + t).name == w
  {
    hide IsIdent, Fields;
    RunLenIs(w, t);
    assert StripLeft(w + t) == w + t;
    assert (w + t)[..|w|] == w && (w + t)[|w|..] == t;
  }

  lemma FirstSweep()
    ensures OnePass(["j ~@done\n", "~@done\n"], JUMPS, 0, 1) == Success(Sweep(PASSED, 1, true))
  {
    CallRead();
    BodyRead();
    NotCalls();
    LabelRenamed();
    RenamedBody();
    hide ParseLine, Instance, Rename, RenameBody, Suffix, Locals;
    SweepPlain("~@done\n", [], JUMPS, 1, 2);
    assert ["~@done\n"] + [] == ["~@done\n"];
    assert ["j ~@done\n", "~@done\n"][1..] == ["~@done\n"];
    assert ["goto ~@done__m1\n"] + ["~@done\n"] == PASSED;
  }

  lemma RenamedBody()
    ensures RenameBody(["goto ~@done\n"], Suffix(1)) == ["goto ~@done__m1\n"]
  {
    hide Rename;
    LabelRenamed();
    assert Suffix(1) == "__m1";
    assert RenameBody(["goto ~@done\n"], "__m1") == ["goto ~@done__m1\n"];
  }

  lemma SecondSweep()
    ensures OnePass(PASSED, JUMPS, 1, 1) == Success(Sweep(PASSED, 1, false))
  {
    NotCalls();
    hide ParseLine, IsCall;
    SweepPlain("~@done\n", [], JUMPS, 1, 2);
    SweepPlain("goto ~@done__m1\n", ["~@done\n"], JUMPS, 1, 1);
    assert ["~@done\n"] + [] == ["~@done\n"];
    assert ["goto ~@done__m1\n"] + ["~@done\n"] == PASSED;
  }

  lemma PassUnfold(lines: seq<string>, macros: Table, c: nat, fuel: nat)
    requires fuel > 0 && OnePass(lines, macros, c, 1).Success?
    ensures var p := OnePass(lines, macros, c, 1).value;
            Passes(lines, macros, c, fuel) ==
            if p.expanded then Passes(p.lines, macros, p.counter, fuel - 1) else Success(p.lines)
  {
    hide OnePass;
  }

  /** The caller's label is renamed with the number of the call, so the jump names a label nobody defines:
      the definition in the same result keeps its name. */
  lemma ArgumentLabelIsLost()
    ensures Expand(PASSING) == Success(PASSED)
    ensures Locals(PASSED[0]) == ["done__m1"] && Locals(PASSED[1]) == ["done"]
  {
    hide ParseDefs, OnePass, Passes, Locals, Rename;
    PassingParsed();
    LabelRenamed();
    FirstSweep();
    SecondSweep();
    PassUnfold(["j ~@done\n", "~@done\n"], JUMPS, 0, 64);
    PassUnfold(PASSED, JUMPS, 1, 63);
  }

  lemma SweepPlain(line: string, rest: seq<string>, macros: Table, c: nat, at: nat)
    requires !IsCall(line, macros)
    ensures OnePass([line] + rest, macros, c, at) ==
            (match OnePass(rest, macros, c, at + 1)
             case Failure(e) => Failure(e)
             case Success(p) => Success(Sweep([line] + p.lines, p.counter, p.expanded)))
  {
    hide IsCall, ParseLine;
    assert ([line] + rest)[1..] == rest;
  }

  lemma {:induction false} PlainBefore(a: string, s: string, suffix: string)
    requires '~' !in a
    ensures Rename(a + s, suffix) == a + Rename(s, suffix) && Locals(a + s) == Locals(s)
    decreases |a|
  {
    hide Rename, Locals;
    if a == [] {
      assert a + s == s;
    } else {
      assert (a + s)[0] == a[0] && (a + s)[1..] == a[1..] + s;
      PlainBefore(a[1..], s, suffix);
      RenameOther(a + s, suffix);
      LocalsUnfold(a + s);
    }
  }
}
