/** Printing an operand tree, lexing the text and parsing the tokens gives the tree back. */
module TextProofs {
  import opened Wrappers
  import opened Regs
  import opened Ast
  import opened Macros
  import opened Text
  import opened LocalLabels

  /** What the lexer reads as one IDENT token. */
  predicate IsName(n: string) {
    IsIdent(n) || (|n| >= 2 && n[0] == '@' && IsAlpha(n[1]) && WordOnly(n[1..]))
  }

  /** Trees that have a spelling. */
  predicate Printable(e: Expr) {
    match e
    case RegName(n) => IsName(n) && IsRegName(n)
    case Ident(n) => IsName(n) && !IsRegName(n)
    case FieldRef(s, f) => IsName(s) && !IsRegName(s) && IsName(f)
    case Bin(_, l, r) => Printable(l) && Printable(r)
    case _ => true
  }

  function Escape(t: string): string {
    if t == [] then []
    else (if t[0] == '"' || t[0] == '\\' then ['\\', t[0]] else [t[0]]) + Escape(t[1..])
  }

  function LeafText(e: Expr): string
    requires !e.Bin?
  {
    match e
    case Num(v) => IntText(v)
    case RegName(n) => n
    case Ident(n) => n
    case FieldRef(s, f) => s + "." + f
    case Str(t) => "\"" + Escape(t) + "\""
  }

  function LeafToks(e: Expr): seq<Tok>
    requires !e.Bin?
  {
    match e
    case Num(v) => [Tok(NUMBER, IntText(v))]
    case RegName(n) => [Tok(IDENT, n)]
    case Ident(n) => [Tok(IDENT, n)]
    case FieldRef(s, f) => [Tok(IDENT, s), Tok(DOT, "."), Tok(IDENT, f)]
    case Str(t) => [Tok(STRING, t)]
  }

  function Sign(op: BinOp): char {
    match op case Plus => '+' case Minus => '-' case Times => '*'
  }

  function SignTok(op: BinOp): Tok {
    match op case Plus => Tok(PLUS, "+") case Minus => Tok(MINUS, "-") case Times => Tok(STAR, "*")
  }

  /** Levels: 0 a sum, 1 a product, 2 a primary. */
  function LevelOf(op: BinOp): nat {
    if op == Times then 1 else 0
  }

  /** Minimal parentheses, spaces around operators. */
  function Show(e: Expr, level: nat): string
    decreases e
  {
    match e
    case Bin(op, l, r) =>
      var body := Show(l, LevelOf(op)) + ([' ', Sign(op), ' '] + Show(r, LevelOf(op) + 1));
      if level <= LevelOf(op) then body else "(" + body + ")"
    case _ => LeafText(e)
  }

  function Toks(e: Expr, level: nat): seq<Tok>
    decreases e
  {
    match e
    case Bin(op, l, r) =>
      var body := Toks(l, LevelOf(op)) + ([SignTok(op)] + Toks(r, LevelOf(op) + 1));
      if level <= LevelOf(op) then body else [Tok(LPAREN, "(")] + body + [Tok(RPAREN, ")")]
    case _ => LeafToks(e)
  }

  // ---- lexing ----

  /** The tokens of a piece in front of those of the rest. */
  function Before(ts: seq<Tok>, rest: Option<seq<Tok>>): Option<seq<Tok>> {
    match rest case None => None case Some(r) => Some(ts + r)
  }

  lemma BeforeBefore(a: seq<Tok>, b: seq<Tok>, r: Option<seq<Tok>>)
    ensures Before(a, Before(b, r)) == Before(a + b, r)
  {
    if r.Some? {
      assert a + (b + r.value) == a + b + r.value;
    }
  }

  predicate Ends(tail: string) {
    tail == [] || !IsWordChar(tail[0])
  }

  /** A piece that scans as one token. */
  lemma OneToken(a: string, tail: string, t: Option<Tok>)
    requires a != [] && ScanOne(a + tail) == Some(Scan(t, |a|))
    ensures Lex(a + tail) == Before(Keep(t), Lex(tail))
  {
    hide ScanOne;
    assert (a + tail)[|a|..] == tail;
  }

  /** A word that begins like an identifier. */
  lemma IdentScans(n: string, tail: string)
    requires IsIdent(n) && Ends(tail)
    ensures n != [] && ScanOne(n + tail) == Some(Scan(Some(Tok(IDENT, n)), |n|))
  {
    WordLenOver(n, tail);
    assert (n + tail)[..|n|] == n;
    hide WordLen;
  }

  /** A word behind an at sign. */
  lemma AtScans(n: string, tail: string)
    requires IsName(n) && !IsIdent(n) && Ends(tail)
    ensures ScanOne(n + tail) == Some(Scan(Some(Tok(IDENT, n)), |n|))
  {
    var s := n + tail;
    assert s[1..] == n[1..] + tail;
    WordLenOver(n[1..], tail);
    assert s[..|n|] == n;
    hide WordLen, IsIdent, WordOnly;
  }

  lemma NameScans(n: string, tail: string)
    requires IsName(n) && Ends(tail)
    ensures Lex(n + tail) == Before([Tok(IDENT, n)], Lex(tail))
  {
    hide Lex, ScanOne, WordOnly, IsIdent;
    if IsIdent(n) {
      IdentScans(n, tail);
    } else {
      AtScans(n, tail);
    }
    OneToken(n, tail, Some(Tok(IDENT, n)));
  }

  lemma {:induction false} DigitLenOver(d: string, r: string)
    requires DigitsOnly(d) && (r == [] || !IsDigit(r[0]))
    ensures DigitLen(d + r) == |d|
  {
    if d == [] {
      assert d + r == r;
    } else {
      assert (d + r)[1..] == d[1..] + r;
      DigitLenOver(d[1..], r);
    }
  }

  lemma {:induction false} DecimalValue(n: nat)
    ensures DigitsValue(Decimal(n), 10) == Some(n)
    ensures Decimal(n) != [] && (n > 0 ==> Decimal(n)[0] != '0')
    ensures n == 0 ==> Decimal(n) == "0"
  {
    if n >= 10 {
      DecimalValue(n / 10);
      var s := Decimal(n);
      assert s[..|s| - 1] == Decimal(n / 10);
    }
  }

  lemma NatOfDecimal(n: nat)
    ensures NatOf(Decimal(n)) == Some(n) && DigitsOnly(Decimal(n)) && Decimal(n) != []
  {
    DecimalDigits(n);
    DecimalValue(n);
  }

  lemma IntOfText(v: int)
    ensures IntOf(IntText(v)) == Some(v)
  {
    hide NatOf, Decimal;
    if v < 0 {
      NatOfDecimal(-v);
      assert IntText(v)[1..] == Decimal(-v);
    } else {
      NatOfDecimal(v);
    }
  }

  /** Decimal digits up to something that does not go on. */
  lemma DigitsEnd(d: string, tail: string)
    requires DigitsOnly(d) && d != [] && Ends(tail)
    ensures NumberLen(d + tail) == |d| && (d + tail)[..|d|] == d && IsDigit((d + tail)[0])
  {
    DigitLenOver(d, tail);
    assert !HexPrefix(d + tail);
  }

  /** A digit first: a number. */
  lemma DigitsScan(d: string, tail: string)
    requires DigitsOnly(d) && d != [] && Ends(tail)
    ensures ScanOne(d + tail) == Some(Scan(Some(Tok(NUMBER, d)), |d|))
  {
    hide DigitLen, NumberLen, NatOf;
    DigitsEnd(d, tail);
  }

  /** A minus and digits: a negative number. */
  lemma MinusScans(d: string, v: nat, tail: string)
    requires DigitsOnly(d) && d != [] && Ends(tail) && NatOf(d) == Some(v)
    ensures ScanOne("-" + d + tail) == Some(Scan(Some(Tok(NUMBER, IntText(Negated(v)))), 1 + |d|))
  {
    hide DigitLen, NumberLen, NatOf, IntText;
    var s := "-" + d + tail;
    DigitsEnd(d, tail);
    assert s[1..] == d + tail;
    assert s[1..1 + |d|] == (d + tail)[..|d|];
  }

  lemma NumberScans(v: int, tail: string)
    requires Ends(tail)
    ensures Lex(IntText(v) + tail) == Before([Tok(NUMBER, IntText(v))], Lex(tail))
  {
    hide Lex, Decimal, NatOf, DigitLen, ScanOne;
    var d := Decimal(if v < 0 then -v else v);
    NatOfDecimal(if v < 0 then -v else v);
    if v < 0 {
      MinusScans(d, -v, tail);
      assert IntText(v) == "-" + d;
    } else {
      DigitsScan(d, tail);
    }
    OneToken(IntText(v), tail, Some(Tok(NUMBER, IntText(v))));
  }

  lemma EscapeFirst(t: string, tail: string)
    requires t != []
    ensures var c, rest := t[0], Escape(t[1..]) + "\"" + tail;
            Escape(t) + "\"" + tail == (if c == '"' || c == '\\' then ['\\', c] else [c]) + rest
    ensures |Escape(t)| == |Escape(t[1..])| + (if t[0] == '"' || t[0] == '\\' then 2 else 1)
  {
  }

  lemma {:induction false} StringScans(t: string, tail: string)
    ensures StringBody(Escape(t) + "\"" + tail) == Some((t, |Escape(t)| + 1))
  {
    var s := Escape(t) + "\"" + tail;
    if t == [] {
      assert s[0] == '"';
    } else {
      StringScans(t[1..], tail);
      EscapeFirst(t, tail);
      hide Escape;
      var rest := Escape(t[1..]) + "\"" + tail;
      assert t == [t[0]] + t[1..];
      if t[0] == '"' || t[0] == '\\' {
        assert s[0] == '\\' && s[1] == t[0] && s[2..] == rest;
      } else {
        assert s[0] == t[0] && s[1..] == rest;
      }
    }
  }

  lemma LiteralScans(t: string, tail: string)
    ensures Lex(LeafText(Str(t)) + tail) == Before([Tok(STRING, t)], Lex(tail))
  {
    hide Lex, StringBody, Escape;
    var a := LeafText(Str(t));
    StringScans(t, tail);
    assert (a + tail)[1..] == Escape(t) + "\"" + tail;
    OneToken(a, tail, Some(Tok(STRING, t)));
  }

  lemma PunctuationScans(c: char, k: Kind, tail: string)
    requires Punctuation(c) == Some(k)
    ensures Lex([c] + tail) == Before([Tok(k, [c])], Lex(tail))
  {
    hide Lex;
    assert ([c] + tail)[0] == c;
    OneToken([c], tail, Some(Tok(k, [c])));
  }

  lemma SpaceScans(tail: string)
    ensures Lex([' '] + tail) == Lex(tail)
  {
    hide Lex;
    assert ([' '] + tail)[0] == ' ';
    OneToken([' '], tail, None);
    if Lex(tail).Some? {
      assert [] + Lex(tail).value == Lex(tail).value;
    }
  }

  /** A spaced operator is never read as the sign of a number. */
  lemma OperatorScans(op: BinOp, tail: string)
    ensures Lex([' ', Sign(op), ' '] + tail) == Before([SignTok(op)], Lex(tail))
  {
    hide Lex;
    var c := Sign(op);
    assert [' ', c, ' '] + tail == [' '] + ([c] + ([' '] + tail));
    SpaceScans([c] + ([' '] + tail));
    SpaceScans(tail);
    assert ([c] + ([' '] + tail))[0] == c && ([c] + ([' '] + tail))[1] == ' ';
    OneToken([c], [' '] + tail, Some(SignTok(op)));
  }

  lemma LeafScans(e: Expr, tail: string)
    requires !e.Bin? && Printable(e) && Ends(tail)
    ensures Lex(LeafText(e) + tail) == Before(LeafToks(e), Lex(tail))
  {
    hide Lex, IntText, IsName, IsRegName;
    if e.Num? { NumberScans(e.value, tail); }
    else if e.RegName? || e.Ident? { NameScans(e.name, tail); }
    else if e.Str? { LiteralScans(e.text, tail); }
    else {
      var s, f := e.struct, e.field;
      assert LeafText(e) + tail == s + (['.'] + (f + tail));
      NameScans(s, ['.'] + (f + tail));
      PunctuationScans('.', DOT, f + tail);
      NameScans(f, tail);
      var l := Lex(tail);
      BeforeBefore([Tok(DOT, ".")], [Tok(IDENT, f)], l);
      BeforeBefore([Tok(IDENT, s)], [Tok(DOT, ".")] + [Tok(IDENT, f)], l);
      assert [Tok(IDENT, s)] + ([Tok(DOT, ".")] + [Tok(IDENT, f)]) == LeafToks(e);
    }
  }

  /** The printed text lexes to the tree's tokens, whatever follows it that does not extend a word. */
  lemma {:induction false} ShowScans(e: Expr, level: nat, tail: string)
    requires Printable(e) && Ends(tail)
    ensures Lex(Show(e, level) + tail) == Before(Toks(e, level), Lex(tail))
    decreases e, 1
  {
    hide Lex, LeafText, LeafToks;
    if !e.Bin? {
      LeafScans(e, tail);
    } else {
      ShowAt(e, level);
      hide Show, Toks;
      if level <= LevelOf(e.op) {
        BinScans(e, tail);
      } else {
        BinScans(e, [')'] + tail);
        Parenthesized(Show(e, 0), Toks(e, 0), tail);
      }
    }
  }

  lemma Parenthesized(body: string, ts: seq<Tok>, tail: string)
    requires Lex(body + ([')'] + tail)) == Before(ts, Lex([')'] + tail))
    ensures Lex("(" + body + ")" + tail) == Before([Tok(LPAREN, "(")] + ts + [Tok(RPAREN, ")")], Lex(tail))
  {
    hide Lex;
    assert "(" + body + ")" + tail == ['('] + (body + ([')'] + tail));
    PunctuationScans('(', LPAREN, body + ([')'] + tail));
    PunctuationScans(')', RPAREN, tail);
    BeforeBefore(ts, [Tok(RPAREN, ")")], Lex(tail));
    BeforeBefore([Tok(LPAREN, "(")], ts + [Tok(RPAREN, ")")], Lex(tail));
    assert [Tok(LPAREN, "(")] + (ts + [Tok(RPAREN, ")")]) == [Tok(LPAREN, "(")] + ts + [Tok(RPAREN, ")")];
  }

  /** The three spellings of a binary node. */
  lemma ShowAt(e: Expr, level: nat)
    requires e.Bin?
    ensures Show(e, level) == if level <= LevelOf(e.op) then Show(e, 0) else "(" + Show(e, 0) + ")"
    ensures Toks(e, level) ==
            if level <= LevelOf(e.op) then Toks(e, 0) else [Tok(LPAREN, "(")] + Toks(e, 0) + [Tok(RPAREN, ")")]
  {
  }

  lemma ShowOfBin(e: Expr)
    requires e.Bin?
    ensures Show(e, 0) ==
            Show(e.left, LevelOf(e.op)) + ([' ', Sign(e.op), ' '] + Show(e.right, LevelOf(e.op) + 1))
  {
  }

  lemma TextSpliced(l: string, m: string, r: string, tail: string)
    ensures l + (m + r) + tail == l + (m + (r + tail))
  {
  }

  lemma {:induction false} BinScans(e: Expr, tail: string)
    requires e.Bin? && Printable(e) && Ends(tail)
    ensures Lex(Show(e, 0) + tail) == Before(Toks(e, 0), Lex(tail))
    decreases e, 0
  {
    hide Lex, Show, Toks, Printable, Before;
    var k := LevelOf(e.op);
    var l, r, sign := Show(e.left, k), Show(e.right, k + 1), [' ', Sign(e.op), ' '];
    var lt, rt := Toks(e.left, k), Toks(e.right, k + 1);
    ShowOfBin(e);
    ToksOfBin(e);
    PrintableParts(e);
    TextSpliced(l, sign, r, tail);
    ShowScans(e.left, k, sign + (r + tail));
    OperatorScans(e.op, r + tail);
    ShowScans(e.right, k + 1, tail);
    BeforeBefore([SignTok(e.op)], rt, Lex(tail));
    BeforeBefore(lt, [SignTok(e.op)] + rt, Lex(tail));
  }

  // ---- parsing ----

  lemma LeafParses(e: Expr, rest: seq<Tok>)
    requires !e.Bin? && Printable(e) && Head(rest) != DOT
    ensures ParsePrimary(LeafToks(e) + rest) == Some((e, rest))
  {
    hide IntText, IntOf, IsRegName, IsName;
    var ts := LeafToks(e) + rest;
    if e.Num? {
      IntOfText(e.value);
      assert ts[1..] == rest;
    } else if e.FieldRef? {
      assert ts[0] == Tok(IDENT, e.struct) && ts[1..][0] == Tok(DOT, ".") && ts[2..][0] == Tok(IDENT, e.field);
      assert ts[3..] == rest;
    } else {
      assert ts[1..] == rest;
    }
  }

  /** A tree printed as a primary parses as one. */
  lemma {:induction false} PrimaryParses(e: Expr, rest: seq<Tok>)
    requires Printable(e) && Head(rest) != DOT
    ensures ParsePrimary(Toks(e, 2) + rest) == Some((e, rest))
    decreases e, if e.Bin? then 3 else 0
  {
    hide LeafToks, IsRegName, IsName;
    if !e.Bin? {
      LeafParses(e, rest);
    } else {
      var after := [Tok(RPAREN, ")")] + rest;
      InParentheses(e, rest);
      hide Toks;
      SumParses(e, after);
    }
  }

  /** A compound tree where a primary is expected is printed in parentheses. */
  lemma InParentheses(e: Expr, rest: seq<Tok>)
    requires e.Bin?
    ensures var ts, after := Toks(e, 2) + rest, [Tok(RPAREN, ")")] + rest;
            && ts != [] && ts[0] == Tok(LPAREN, "(") && ts[1..] == Toks(e, 0) + after && after[1..] == rest
  {
    ShowAt(e, 2);
    hide Toks;
    Enclosed(Tok(LPAREN, "("), Toks(e, 0), Tok(RPAREN, ")"), rest);
  }

  lemma Enclosed(a: Tok, ts: seq<Tok>, b: Tok, rest: seq<Tok>)
    ensures [a] + ts + [b] + rest == [a] + (ts + ([b] + rest))
    ensures ([a] + (ts + ([b] + rest)))[1..] == ts + ([b] + rest) && ([b] + rest)[1..] == rest
  {
  }

  /** Left operand, sign, right operand and what follows. */
  lemma Spliced(l: seq<Tok>, t: Tok, r: seq<Tok>, rest: seq<Tok>)
    ensures l + ([t] + r) + rest == l + ([t] + (r + rest))
    ensures ([t] + (r + rest))[0] == t && ([t] + (r + rest))[1..] == r + rest
  {
  }

  /** A product printed without parentheses is read left to right, then the rest of the product. */
  lemma {:induction false} ProductParses(e: Expr, rest: seq<Tok>)
    requires Printable(e) && Head(rest) != DOT
    ensures ParseMul(Toks(e, 1) + rest) == MulTail(e, rest)
    decreases e, if e.Bin? && e.op != Times then 4 else 1
  {
    hide ParsePrimary, Toks, Printable;
    if e.Bin? && e.op == Times {
      var lt, rt := Toks(e.left, 1), Toks(e.right, 2);
      ToksOfBin(e);
      ShowAt(e, 1);
      PrintableParts(e);
      var after := [SignTok(Times)] + (rt + rest);
      Spliced(lt, SignTok(Times), rt, rest);
      ProductParses(e.left, after);
      PrimaryParses(e.right, rest);
    } else {
      SameToks(e, 1, 2);
      PrimaryParses(e, rest);
    }
  }

  lemma PrintableParts(e: Expr)
    requires e.Bin? && Printable(e)
    ensures Printable(e.left) && Printable(e.right)
  {
  }

  lemma ToksOfBin(e: Expr)
    requires e.Bin?
    ensures Toks(e, 0) == Toks(e.left, LevelOf(e.op)) + ([SignTok(e.op)] + Toks(e.right, LevelOf(e.op) + 1))
  {
  }

  /** Levels that put the same parentheses. */
  lemma SameToks(e: Expr, a: nat, b: nat)
    requires e.Bin? ==> (a <= LevelOf(e.op) <==> b <= LevelOf(e.op))
    ensures Toks(e, a) == Toks(e, b)
  {
  }

  lemma {:induction false} SumParses(e: Expr, rest: seq<Tok>)
    requires Printable(e) && Head(rest) != DOT && Head(rest) != STAR
    ensures ParseAdd(Toks(e, 0) + rest) == AddTail(e, rest)
    decreases e, 2
  {
    hide ParseMul, Toks, Printable;
    if e.Bin? && e.op != Times {
      var lt, rt := Toks(e.left, 0), Toks(e.right, 1);
      ToksOfBin(e);
      PrintableParts(e);
      var after := [SignTok(e.op)] + (rt + rest);
      Spliced(lt, SignTok(e.op), rt, rest);
      SumParses(e.left, after);
      ProductParses(e.right, rest);
    } else {
      SameToks(e, 0, 1);
      ProductParses(e, rest);
    }
  }

  /** The round trip: `*` binds tighter than `+` and `-`, operators associate to the left, negative
      literals survive after operators, and register names come back as registers. */
  lemma TextRoundTrip(e: Expr)
    requires Printable(e)
    ensures Lex(Show(e, 0)) == Some(Toks(e, 0) + [Tok(EOF, "")])
    ensures ParseAdd(Toks(e, 0) + [Tok(EOF, "")]) == Some((e, [Tok(EOF, "")]))
  {
    hide Show, Toks, ParseAdd;
    ShowScans(e, 0, []);
    assert Show(e, 0) + [] == Show(e, 0);
    SumParses(e, [Tok(EOF, "")]);
  }

  // ---- register names ----

  /** No identifier in the tree is a register name. */
  predicate NamesApart(e: Expr) {
    match e
    case RegName(n) => IsRegName(n)
    case Ident(n) => !IsRegName(n)
    case FieldRef(s, _) => !IsRegName(s)
    case Bin(_, l, r) => NamesApart(l) && NamesApart(r)
    case _ => true
  }

  /** Whatever the tokens, a register name never becomes an identifier, nor an identifier a register. */
  lemma {:induction false} SumNames(ts: seq<Tok>)
    ensures ParseAdd(ts).Some? ==> NamesApart(ParseAdd(ts).value.0)
    decreases |ts|, 3
  {
    hide IsRegName;
    ProductNames(ts);
    if ParseMul(ts).Some? {
      SumTailNames(ParseMul(ts).value.0, ParseMul(ts).value.1);
    }
  }

  lemma {:induction false} SumTailNames(e: Expr, ts: seq<Tok>)
    requires NamesApart(e)
    ensures AddTail(e, ts).Some? ==> NamesApart(AddTail(e, ts).value.0)
    decreases |ts|, 3
  {
    hide IsRegName, ParseMul;
    if Head(ts) == PLUS || Head(ts) == MINUS {
      ProductNames(ts[1..]);
      if ParseMul(ts[1..]).Some? {
        var p := ParseMul(ts[1..]).value;
        SumTailNames(Bin(if Head(ts) == PLUS then Plus else Minus, e, p.0), p.1);
      }
    }
  }

  lemma {:induction false} ProductNames(ts: seq<Tok>)
    ensures ParseMul(ts).Some? ==> NamesApart(ParseMul(ts).value.0)
    decreases |ts|, 2
  {
    hide IsRegName, ParsePrimary;
    PrimaryNames(ts);
    if ParsePrimary(ts).Some? {
      ProductTailNames(ParsePrimary(ts).value.0, ParsePrimary(ts).value.1);
    }
  }

  lemma {:induction false} ProductTailNames(e: Expr, ts: seq<Tok>)
    requires NamesApart(e)
    ensures MulTail(e, ts).Some? ==> NamesApart(MulTail(e, ts).value.0)
    decreases |ts|, 2
  {
    hide IsRegName, ParsePrimary;
    if Head(ts) == STAR {
      PrimaryNames(ts[1..]);
      if ParsePrimary(ts[1..]).Some? {
        ProductTailNames(Bin(Times, e, ParsePrimary(ts[1..]).value.0), ParsePrimary(ts[1..]).value.1);
      }
    }
  }

  lemma {:induction false} PrimaryNames(ts: seq<Tok>)
    ensures ParsePrimary(ts).Some? ==> NamesApart(ParsePrimary(ts).value.0)
    decreases |ts|, 1
  {
    hide IsRegName, IntOf;
    if Head(ts) == LPAREN {
      SumNames(ts[1..]);
    }
  }
}
