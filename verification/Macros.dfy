/** Macro expansion as ACLM/compiler.py does it: definitions, call lines, substitution, renaming, passes. */
module Macros {
  import opened Wrappers
  import opened Regs

  // ---- characters and words ----

  predicate IsSep(c: char) {
    IsBlank(c) || c == ','
  }

  predicate IsWordStart(c: char) {
    'A' <= c <= 'Z' || 'a' <= c <= 'z' || c == '_'
  }

  predicate IsWordChar(c: char) {
    IsWordStart(c) || '0' <= c <= '9'
  }

  predicate IsIdent(w: string) {
    w != [] && IsWordStart(w[0]) && forall i | 0 <= i < |w| :: IsWordChar(w[i])
  }

  predicate AllBlank(s: string) {
    s == [] || (IsBlank(s[0]) && AllBlank(s[1..]))
  }

  /** Length of the longest prefix of identifier characters. */
  function WordLen(s: string): (n: nat)
    ensures n <= |s| && (forall i | 0 <= i < n :: IsWordChar(s[i])) && (n < |s| ==> !IsWordChar(s[n]))
  {
    if s == [] || !IsWordChar(s[0]) then 0 else 1 + WordLen(s[1..])
  }

  /** Length of the longest prefix without white space. */
  function RunLen(s: string): (n: nat)
    ensures n <= |s| && (forall i | 0 <= i < n :: !IsBlank(s[i])) && (n < |s| ==> IsBlank(s[n]))
  {
    if s == [] || IsBlank(s[0]) then 0 else 1 + RunLen(s[1..])
  }

  /** Length of the longest prefix without separators. */
  function FieldLen(s: string): (n: nat)
    ensures n <= |s| && (forall i | 0 <= i < n :: !IsSep(s[i])) && (n < |s| ==> IsSep(s[n]))
  {
    if s == [] || IsSep(s[0]) then 0 else 1 + FieldLen(s[1..])
  }

  /** The non-empty pieces between commas and white space. */
  function Fields(s: string): seq<string>
    decreases |s|
  {
    if s == [] then []
    else if IsSep(s[0]) then Fields(s[1..])
    else [s[..FieldLen(s)]] + Fields(s[FieldLen(s)..])
  }

  /** `split()` on white space. */
  function Words(s: string): seq<string>
    decreases |s|
  {
    if s == [] then []
    else if IsBlank(s[0]) then Words(s[1..])
    else [s[..RunLen(s)]] + Words(s[RunLen(s)..])
  }

  /** A newline with text before it (`seen`) and after it: `.` cannot cross it. */
  predicate NewlineInside(s: string, seen: bool) {
    s != [] && ((seen && s[0] == '\n' && !AllBlank(s[1..])) || NewlineInside(s[1..], seen || !IsBlank(s[0])))
  }

  /** Some character after the first is not a newline: an all-blank tail then still matches `\s+(.+?)\s*`. */
  predicate BlankArgument(t: string) {
    exists i | 1 <= i < |t| :: t[i] != '\n'
  }

  // ---- call lines ----

  datatype LineKind = Plain | WithArgs(name: string, vals: seq<string>) | Bare(name: string)

  /** What the two call patterns make of the text after the first word. */
  function TailKind(name: string, t: string): LineKind {
    if AllBlank(t) then (if BlankArgument(t) then WithArgs(name, []) else Bare(name))
    else if NewlineInside(t, false) then Plain
    else WithArgs(name, Fields(t))
  }

  /** First word of a line and what follows. */
  function FirstWord(s: string): (string, string) {
    var u := StripLeft(s);
    (u[..RunLen(u)], u[RunLen(u)..])
  }

  function ParseLine(s: string): LineKind {
    var (w, t) := FirstWord(s);
    if IsIdent(w) then TailKind(w, t) else Plain
  }

  datatype Macro = Macro(params: seq<string>, body: seq<string>)

  type Table = map<string, Macro>

  predicate IsCall(s: string, macros: Table) {
    var k := ParseLine(s);
    !k.Plain? && k.name in macros
  }

  // ---- one call ----

  /** `s.replace(pat, v)`. */
  function Replace(s: string, pat: string, v: string): string
    requires pat != []
    decreases |s|
  {
    if s == [] then []
    else if pat <= s then v + Replace(s[|pat|..], pat, v)
    else [s[0]] + Replace(s[1..], pat, v)
  }

  /** `dict(zip(params, vals))` as a list: a repeated name keeps its first place and its last value. */
  function Bindings(params: seq<string>, vals: seq<string>): seq<(string, string)>
    requires |params| <= |vals|
  {
    if params == [] then []
    else
      var n := |params| - 1;
      Bind(Bindings(params[..n], vals), params[n], vals[n])
  }

  function Bind(b: seq<(string, string)>, k: string, v: string): seq<(string, string)> {
    if b == [] then [(k, v)]
    else if b[0].0 == k then [(k, v)] + b[1..]
    else [b[0]] + Bind(b[1..], k, v)
  }

  /** Replace `$k` by its value, one name after the other. */
  function Substitute(s: string, b: seq<(string, string)>): string
    decreases |b|
  {
    if b == [] then s else Substitute(Replace(s, "$" + b[0].0, b[0].1), b[1..])
  }

  function Digit(d: nat): char
    requires d < 10
  {
    ((d + '0' as nat) as char)
  }

  function Decimal(n: nat): string {
    if n < 10 then [Digit(n)] else Decimal(n / 10) + [Digit(n % 10)]
  }

  function Suffix(n: nat): string {
    "__m" + Decimal(n)
  }

  /** A `~@name` starts here. */
  predicate LocalHere(s: string) {
    |s| >= 3 && s[0] == '~' && s[1] == '@' && IsWordStart(s[2])
  }

  /** `re.sub` of every `~@name` by `~@name` and a suffix. */
  function Rename(s: string, suffix: string): string
    decreases |s|
  {
    if s == [] then []
    else if LocalHere(s) then
      var n := 2 + WordLen(s[2..]);
      s[..n] + suffix + Rename(s[n..], suffix)
    else [s[0]] + Rename(s[1..], suffix)
  }

  function SubstituteBody(body: seq<string>, b: seq<(string, string)>): seq<string> {
    seq(|body|, i requires 0 <= i < |body| => Substitute(body[i], b))
  }

  function RenameBody(body: seq<string>, suffix: string): seq<string> {
    seq(|body|, i requires 0 <= i < |body| => Rename(body[i], suffix))
  }

  /** The body of a call before renaming; None when arguments are missing. */
  function Instance(k: LineKind, macros: Table): Option<seq<string>>
    requires !k.Plain? && k.name in macros
  {
    var m := macros[k.name];
    if k.Bare? then Some(m.body)
    else if |k.vals| < |m.params| then None
    else Some(SubstituteBody(m.body, Bindings(m.params, k.vals)))
  }

  // ---- passes ----

  datatype MacroError =
    | MissingEnd(line: nat, name: string)
    | FewArguments(line: nat, name: string, need: nat, got: nat)
    | NoFixedPoint

  datatype Sweep = Sweep(lines: seq<string>, counter: nat, expanded: bool)

  /** `expand_one_pass`, from line number `at`. */
  function OnePass(lines: seq<string>, macros: Table, counter: nat, at: nat): Result<Sweep, MacroError>
    decreases |lines|
  {
    if lines == [] then Success(Sweep([], counter, false))
    else
      var k := ParseLine(lines[0]);
      if IsCall(lines[0], macros) then
        match Instance(k, macros)
        case None => Failure(FewArguments(at, k.name, |macros[k.name].params|, |k.vals|))
        case Some(body) =>
          (match OnePass(lines[1..], macros, counter + 1, at + 1)
           case Failure(e) => Failure(e)
           case Success(p) => Success(Sweep(RenameBody(body, Suffix(counter + 1)) + p.lines, p.counter, true)))
      else
        match OnePass(lines[1..], macros, counter, at + 1)
        case Failure(e) => Failure(e)
        case Success(p) => Success(Sweep([lines[0]] + p.lines, p.counter, p.expanded))
  }

  const MAX_PASSES: nat := 64

  /** The pass loop with `fuel` passes left. */
  function Passes(lines: seq<string>, macros: Table, counter: nat, fuel: nat): Result<seq<string>, MacroError>
    decreases fuel
  {
    if fuel == 0 then Failure(NoFixedPoint)
    else
      match OnePass(lines, macros, counter, 1)
      case Failure(e) => Failure(e)
      case Success(p) => if p.expanded then Passes(p.lines, macros, p.counter, fuel - 1) else Success(p.lines)
  }

  // ---- definitions ----

  /** `.*$` matches: no newline, except at the very end. */
  predicate OneLine(s: string) {
    forall i | 0 <= i < |s| - 1 :: s[i] != '\n'
  }

  /** Name and parameters of a `macro:` line. */
  function Definition(s: string): Option<(string, seq<string>)> {
    var u := StripLeft(s);
    if !("macro:" <= u) then None
    else
      var v := StripLeft(u[6..]);
      var n := WordLen(v);
      if v == [] || !IsWordStart(v[0]) || !OneLine(StripLeft(v[n..])) then None
      else Some((v[..n], Words(v[n..])))
  }

  predicate IsEnd(s: string) {
    var u := StripLeft(s);
    "end:macro" <= u && AllBlank(u[9..])
  }

  /** Lines up to the closing line, and the lines after it. */
  function TakeBody(lines: seq<string>): (r: Option<(seq<string>, seq<string>)>)
    ensures r.Some? ==> |r.value.1| < |lines|
    decreases |lines|
  {
    if lines == [] then None
    else if IsEnd(lines[0]) then Some(([], lines[1..]))
    else (match TakeBody(lines[1..]) case None => None case Some(p) => Some(([lines[0]] + p.0, p.1)))
  }

  /** `parse_defs`: the macros and the other lines; a later definition replaces an earlier one. */
  function ParseDefs(lines: seq<string>, at: nat): Result<(Table, seq<string>), MacroError>
    decreases |lines|
  {
    if lines == [] then Success((map[], []))
    else
      match Definition(lines[0])
      case None =>
        (match ParseDefs(lines[1..], at + 1)
         case Failure(e) => Failure(e)
         case Success(p) => Success((p.0, [lines[0]] + p.1)))
      case Some(d) =>
        match TakeBody(lines[1..])
        case None => Failure(MissingEnd(at, d.0))
        case Some(b) =>
          match ParseDefs(b.1, at + |lines| - |b.1|)
          case Failure(e) => Failure(e)
          case Success(p) => Success((map[d.0 := Macro(d.1, b.0)] + p.0, p.1))
  }

  /** `expand_macros` on the lines of the source. */
  function Expand(lines: seq<string>): Result<seq<string>, MacroError> {
    match ParseDefs(lines, 1)
    case Failure(e) => Failure(e)
    case Success(p) => Passes(p.1, p.0, 0, MAX_PASSES)
  }

  lemma NoBindings()
    ensures forall s :: Substitute(s, []) == s
  {
  }

  lemma Prepend(t: Table, out: seq<string>, r: Result<(Table, seq<string>), MacroError>)
    requires t == map[] && out == []
    ensures r.Success? ==> t + r.value.0 == r.value.0 && out + r.value.1 == r.value.1
  {
  }

  lemma Regroup(t: Table, n: string, m: Macro, r: Result<(Table, seq<string>), MacroError>)
    ensures r.Success? ==> t + (map[n := m] + r.value.0) == t[n := m] + r.value.0
  {
  }

  lemma Reassociate(out: seq<string>, s: string, r: Result<(Table, seq<string>), MacroError>)
    ensures r.Success? ==> out + ([s] + r.value.1) == out + [s] + r.value.1
  {
  }

  /** The expander: its table of macros and the call counter all passes share. */
  class Expander {
    var macros: Table
    var callCounter: nat

    constructor ()
      ensures macros == map[] && callCounter == 0
    {
      macros, callCounter := map[], 0;
    }

    /** The lines of a definition, up to its closing line. */
    static method ReadBody(lines: seq<string>, start: nat) returns (closed: bool, body: seq<string>, i: nat)
      requires start <= |lines|
      ensures start <= i <= |lines|
      ensures TakeBody(lines[start..]) == if closed then Some((body, lines[i..])) else None
      ensures closed ==> start < i
    {
      hide IsEnd;
      closed, body, i := false, [], start;
      assert forall p: (seq<string>, seq<string>) :: body + p.0 == p.0;
      while i < |lines|
        invariant start <= i <= |lines| && !closed
        invariant TakeBody(lines[start..]) ==
                  (match TakeBody(lines[i..]) case None => None case Some(p) => Some((body + p.0, p.1)))
      {
        assert lines[i..][1..] == lines[i + 1..] && lines[i..][0] == lines[i];
        if IsEnd(lines[i]) {
          assert body + [] == body;
          return true, body, i + 1;
        }
        ghost var soFar := body;
        body := body + [lines[i]];
        assert forall p: (seq<string>, seq<string>) :: soFar + ([lines[i]] + p.0) == body + p.0;
        i := i + 1;
      }
    }

    /** `parse_defs`. */
    method ReadDefinitions(lines: seq<string>) returns (r: Result<seq<string>, MacroError>)
      requires macros == map[]
      modifies this`macros
      ensures match ParseDefs(lines, 1)
              case Failure(e) => r == Failure(e)
              case Success(p) => r == Success(p.1) && macros == p.0
    {
      hide Definition, TakeBody;
      var out: seq<string>, i := [], 0;
      assert lines[0..] == lines;
      Prepend(macros, out, ParseDefs(lines, 1));
      while i < |lines|
        invariant i <= |lines|
        invariant match ParseDefs(lines[i..], i + 1)
                  case Failure(e) => ParseDefs(lines, 1) == Failure(e)
                  case Success(p) => ParseDefs(lines, 1) == Success((macros + p.0, out + p.1))
      {
        var d := Definition(lines[i]);
        assert lines[i..][1..] == lines[i + 1..] && lines[i..][0] == lines[i];
        if d.Some? {
          var closed, body, next := ReadBody(lines, i + 1);
          if !closed {
            return Failure(MissingEnd(i + 1, d.value.0));
          }
          Regroup(macros, d.value.0, Macro(d.value.1, body), ParseDefs(lines[next..], next + 1));
          macros := macros[d.value.0 := Macro(d.value.1, body)];
          i := next;
        } else {
          Reassociate(out, lines[i], ParseDefs(lines[i + 1..], i + 2));
          out := out + [lines[i]];
          i := i + 1;
        }
      }
      assert out + [] == out && macros + map[] == macros;
      return Success(out);
    }

    static method SubstituteLine(s: string, b: seq<(string, string)>) returns (r: string)
      ensures r == Substitute(s, b)
    {
      hide Replace;
      r := s;
      var j := 0;
      assert b[0..] == b;
      while j < |b|
        invariant j <= |b| && Substitute(r, b[j..]) == Substitute(s, b)
      {
        assert b[j..][1..] == b[j + 1..];
        r := Replace(r, "$" + b[j].0, b[j].1);
        j := j + 1;
      }
    }

    /** The body of one call, renamed with the next call number. */
    method ExpandCall(k: LineKind, at: nat) returns (r: Result<seq<string>, MacroError>)
      requires !k.Plain? && k.name in macros
      modifies this`callCounter
      ensures callCounter == old(callCounter) + 1
      ensures match Instance(k, macros)
              case None => r == Failure(FewArguments(at, k.name, |macros[k.name].params|, |k.vals|))
              case Some(body) => r == Success(RenameBody(body, Suffix(callCounter)))
    {
      hide Bindings, Suffix;
      callCounter := callCounter + 1;
      var m := macros[k.name];
      if k.WithArgs? && |k.vals| < |m.params| {
        return Failure(FewArguments(at, k.name, |m.params|, |k.vals|));
      }
      var b := if k.WithArgs? then Bindings(m.params, k.vals) else [];
      var out: seq<string>, i := [], 0;
      var suffix := Suffix(callCounter);
      ghost var renamed := RenameBody(Instance(k, macros).value, suffix);
      NoBindings();
      while i < |m.body|
        invariant callCounter == old(callCounter) + 1
        invariant i <= |m.body| == |renamed| && out == renamed[..i]
      {
        var expanded := SubstituteLine(m.body[i], b);
        assert Instance(k, macros).value[i] == Substitute(m.body[i], b);
        out := out + [Rename(expanded, suffix)];
        i := i + 1;
      }
      assert out == renamed;
      return Success(out);
    }

    /** `expand_one_pass`. */
    method ExpandOnePass(lines: seq<string>) returns (r: Result<Sweep, MacroError>)
      modifies this`callCounter
      ensures r == OnePass(lines, macros, old(callCounter), 1)
      ensures r.Success? ==> callCounter == r.value.counter
    {
      hide ParseLine, Instance;
      var out: seq<string>, expanded, i := [], false, 0;
      assert lines[0..] == lines;
      assert forall p: Sweep :: out + p.lines == p.lines;
      while i < |lines|
        invariant i <= |lines|
        invariant match OnePass(lines[i..], macros, callCounter, i + 1)
                  case Failure(e) => OnePass(lines, macros, old(callCounter), 1) == Failure(e)
                  case Success(p) => OnePass(lines, macros, old(callCounter), 1) ==
                                     Success(Sweep(out + p.lines, p.counter, expanded || p.expanded))
      {
        var k := ParseLine(lines[i]);
        assert lines[i..][1..] == lines[i + 1..] && lines[i..][0] == lines[i];
        ghost var soFar := out;
        if !k.Plain? && k.name in macros {
          var body := ExpandCall(k, i + 1);
          if body.Failure? {
            return Failure(body.error);
          }
          out := out + body.value;
          assert forall p: Sweep :: soFar + (body.value + p.lines) == out + p.lines;
          expanded := true;
        } else {
          out := out + [lines[i]];
          assert forall p: Sweep :: soFar + ([lines[i]] + p.lines) == out + p.lines;
        }
        i := i + 1;
      }
      assert out + [] == out;
      return Success(Sweep(out, callCounter, expanded));
    }

    /** `expand_macros`: at most 64 passes, the last of which must find no call. */
    method ExpandAll(source: seq<string>) returns (r: Result<seq<string>, MacroError>)
      requires macros == map[] && callCounter == 0
      modifies this
      ensures r == Expand(source)
    {
      var rest := ReadDefinitions(source);
      if rest.Failure? {
        return Failure(rest.error);
      }
      var lines, n := rest.value, 0;
      while n < MAX_PASSES
        invariant n <= MAX_PASSES && Expand(source) == Passes(lines, macros, callCounter, MAX_PASSES - n)
      {
        var p := ExpandOnePass(lines);
        if p.Failure? {
          return Failure(p.error);
        }
        lines := p.value.lines;
        if !p.value.expanded {
          return Success(lines);
        }
        n := n + 1;
      }
      return Failure(NoFixedPoint);
    }
  }
}
