/** From text to operand trees: the lexer of ACLM/lexer.py and the expression parser of ACLM/parser.py.
    Characters are classified as in ASCII; token positions, which only errors report, are not modelled. */
module Text {
  import opened Wrappers
  import opened Regs
  import opened Ast
  import opened Macros

  datatype Kind = EOF | NEWLINE | IDENT | NUMBER | STRING | LABEL | LBRACK | RBRACK | COMMA | COLON | DOT
                | PLUS | MINUS | EQ | STAR | LPAREN | RPAREN | TILDE

  datatype Tok = Tok(kind: Kind, text: string)

  predicate IsAlpha(c: char) {
    'A' <= c <= 'Z' || 'a' <= c <= 'z'
  }

  predicate IsDigit(c: char) {
    '0' <= c <= '9'
  }

  // ---- numbers ----

  function DigitLen(s: string): (n: nat)
    ensures n <= |s| && (forall i | 0 <= i < n :: IsDigit(s[i])) && (n < |s| ==> !IsDigit(s[n]))
  {
    if s == [] || !IsDigit(s[0]) then 0 else 1 + DigitLen(s[1..])
  }

  function AlnumLen(s: string): (n: nat)
    ensures n <= |s| && (n < |s| ==> !(IsAlpha(s[n]) || IsDigit(s[n])))
  {
    if s == [] || !(IsAlpha(s[0]) || IsDigit(s[0])) then 0 else 1 + AlnumLen(s[1..])
  }

  predicate HexPrefix(s: string) {
    |s| >= 2 && s[0] == '0' && (s[1] == 'x' || s[1] == 'X')
  }

  /** Characters of `_number_body`. */
  function NumberLen(s: string): (n: nat)
    ensures n <= |s|
  {
    if HexPrefix(s) then 2 + AlnumLen(s[2..]) else DigitLen(s)
  }

  function HexDigit(c: char): Option<nat> {
    if IsDigit(c) then Some(c as nat - '0' as nat)
    else if 'a' <= c <= 'f' then Some(c as nat - 'a' as nat + 10)
    else if 'A' <= c <= 'F' then Some(c as nat - 'A' as nat + 10)
    else None
  }

  /** Value of a digit string in a base; None if a character is not a digit of it, or there is none. */
  function DigitsValue(s: string, base: nat): Option<nat> {
    if s == [] then None
    else
      var n := |s| - 1;
      var d := HexDigit(s[n]);
      if d.None? || d.value >= base then None
      else if n == 0 then Some(d.value)
      else (match DigitsValue(s[..n], base) case None => None case Some(v) => Some(v * base + d.value))
  }

  predicate AllZeros(s: string) {
    forall i | 0 <= i < |s| :: s[i] == '0'
  }

  /** `int(text, 0)` on an unsigned literal: a leading zero is only allowed in zero itself. */
  function NatOf(s: string): Option<nat> {
    if HexPrefix(s) then DigitsValue(s[2..], 16)
    else if |s| > 1 && s[0] == '0' && !AllZeros(s) then None
    else DigitsValue(s, 10)
  }

  function Negated(v: int): int {
    -v
  }

  function IntOf(s: string): Option<int> {
    if s != [] && s[0] == '-' then (match NatOf(s[1..]) case None => None case Some(v) => Some(Negated(v)))
    else (match NatOf(s) case None => None case Some(v) => Some(v))
  }

  /** `str(v)`. */
  function IntText(v: int): string {
    if v < 0 then "-" + Decimal(-v) else Decimal(v)
  }

  // ---- strings ----

  function Unescape(c: char): char {
    if c == 'n' then '\n' else if c == 't' then '\t' else c
  }

  /** Contents up to the closing quote, and the characters used including it. */
  function StringBody(s: string): Option<(string, nat)>
    decreases |s|
  {
    if s == [] then None
    else if s[0] == '"' then Some(([], 1))
    else if s[0] == '\\' && |s| > 1 then
      (match StringBody(s[2..]) case None => None case Some(p) => Some(([Unescape(s[1])] + p.0, p.1 + 2)))
    else
      (match StringBody(s[1..]) case None => None case Some(p) => Some(([s[0]] + p.0, p.1 + 1)))
  }

  lemma {:induction false} StringBodyLength(s: string)
    ensures StringBody(s).Some? ==> 1 <= StringBody(s).value.1 <= |s|
    decreases |s|
  {
    if s == [] || s[0] == '"' {
    } else if s[0] == '\\' && |s| > 1 {
      StringBodyLength(s[2..]);
    } else {
      StringBodyLength(s[1..]);
    }
  }

  /** Length of a comment. */
  function CommentLen(s: string): (n: nat)
    ensures n <= |s|
  {
    if s == [] || s[0] == '\n' then 0 else 1 + CommentLen(s[1..])
  }

  // ---- tokens ----

  function Punctuation(c: char): Option<Kind> {
    if c == '[' then Some(LBRACK) else if c == ']' then Some(RBRACK) else if c == ',' then Some(COMMA)
    else if c == ':' then Some(COLON) else if c == '.' then Some(DOT) else if c == '+' then Some(PLUS)
    else if c == '=' then Some(EQ) else if c == '*' then Some(STAR) else if c == '(' then Some(LPAREN)
    else if c == ')' then Some(RPAREN) else None
  }

  /** One turn of the tokenizer: a token or nothing, and the characters used. None is a syntax error. */
  datatype Scan = Scan(tok: Option<Tok>, used: nat)

  function ScanOne(s: string): (r: Option<Scan>)
    requires s != []
    ensures r.Some? ==> 1 <= r.value.used <= |s|
  {
    var c := s[0];
    if c == ' ' || c == '\t' || c == '\r' then Some(Scan(None, 1))
    else if c == '\n' then Some(Scan(Some(Tok(NEWLINE, "\\n")), 1))
    else if c == '#' then Some(Scan(None, CommentLen(s)))
    else if c == '"' then
      StringBodyLength(s[1..]);
      (match StringBody(s[1..]) case None => None case Some(p) => Some(Scan(Some(Tok(STRING, p.0)), p.1 + 1)))
    else if Punctuation(c).Some? then Some(Scan(Some(Tok(Punctuation(c).value, [c])), 1))
    else if c == '~' then
      var n := WordLen(s[1..]);
      if n > 0 then Some(Scan(Some(Tok(LABEL, s[1..1 + n])), 1 + n)) else Some(Scan(Some(Tok(TILDE, "~")), 1))
    else if c == '-' then
      if |s| > 1 && IsDigit(s[1]) then
        var n := NumberLen(s[1..]);
        (match NatOf(s[1..1 + n])
         case None => None
         case Some(v) => Some(Scan(Some(Tok(NUMBER, IntText(Negated(v)))), 1 + n)))
      else Some(Scan(Some(Tok(MINUS, "-")), 1))
    else if IsDigit(c) then Some(Scan(Some(Tok(NUMBER, s[..NumberLen(s)])), NumberLen(s)))
    else if c == '@' then
      if |s| > 1 && IsAlpha(s[1]) then Some(Scan(Some(Tok(IDENT, s[..1 + WordLen(s[1..])])), 1 + WordLen(s[1..])))
        else None
    else if IsWordStart(c) then Some(Scan(Some(Tok(IDENT, s[..WordLen(s)])), WordLen(s)))
    else None
  }

  function Keep(t: Option<Tok>): seq<Tok> {
    if t.None? then [] else [t.value]
  }

  /** `tokenize`. */
  function Lex(s: string): Option<seq<Tok>>
    decreases |s|
  {
    if s == [] then Some([Tok(EOF, "")])
    else
      match ScanOne(s)
      case None => None
      case Some(r) => (match Lex(s[r.used..]) case None => None case Some(rest) => Some(Keep(r.tok) + rest))
  }

  /** The body read so far in front of the rest. */
  function After(w: string, n: nat, rest: Option<(string, nat)>): Option<(string, nat)> {
    match rest case None => None case Some(p) => Some((w + p.0, n + p.1))
  }

  lemma StringStart(s: string)
    ensures After([], 0, StringBody(s)) == StringBody(s)
  {
    if StringBody(s).Some? {
      assert [] + StringBody(s).value.0 == StringBody(s).value.0;
    }
  }

  lemma StringEnd(s: string, w: string, n: nat)
    requires s == [] || s[0] == '"'
    ensures After(w, n, StringBody(s)) == if s == [] then None else Some((w, n + 1))
  {
    assert w + [] == w;
  }

  lemma StringStep(src: string, i: nat, w: string, n: nat)
    requires i < |src| && src[i] != '"'
    ensures var two := src[i] == '\\' && i + 1 < |src|;
            After(w, n, StringBody(src[i..])) ==
            if two then After(w + [Unescape(src[i + 1])], n + 2, StringBody(src[i + 2..]))
            else After(w + [src[i]], n + 1, StringBody(src[i + 1..]))
  {
    var s := src[i..];
    UnfoldBody(s);
    hide StringBody, After, Unescape;
    if src[i] == '\\' && i + 1 < |src| {
      assert s[2..] == src[i + 2..];
      AfterAfter(w, n, [Unescape(s[1])], 2, StringBody(s[2..]));
    } else {
      assert s[1..] == src[i + 1..];
      AfterAfter(w, n, [s[0]], 1, StringBody(s[1..]));
    }
  }

  lemma UnfoldBody(s: string)
    requires s != [] && s[0] != '"'
    ensures StringBody(s) == if s[0] == '\\' && |s| > 1 then After([Unescape(s[1])], 2, StringBody(s[2..]))
                             else After([s[0]], 1, StringBody(s[1..]))
  {
  }

  lemma AfterAfter(w: string, n: nat, c: string, k: nat, r: Option<(string, nat)>)
    ensures After(w, n, After(c, k, r)) == After(w + c, n + k, r)
  {
    if r.Some? {
      assert w + (c + r.value.0) == w + c + r.value.0;
    }
  }

  // ---- the lexer object ----

  class Lexer {
    const src: string
    var i: nat

    ghost predicate Valid()
      reads this
    {
      i <= |src|
    }

    constructor (src: string)
      ensures Valid() && this.src == src && i == 0
    {
      this.src := src;
      i := 0;
    }

    /** `_ident_body` and `_label_body`. */
    method WordBody() returns (w: string)
      requires Valid()
      modifies this
      ensures Valid() && i == old(i) + WordLen(src[old(i)..]) && w == src[old(i)..i]
    {
      w := [];
      ghost var start := i;
      assert src[start..] == src[i..];
      while i < |src| && IsWordChar(src[i])
        invariant start <= i <= |src| && w == src[start..i]
        invariant WordLen(src[start..]) == i - start + WordLen(src[i..])
      {
        assert src[i..][1..] == src[i + 1..] && src[i..][0] == src[i];
        w := w + [src[i]];
        i := i + 1;
      }
    }

    method Digits() returns (w: string)
      requires Valid()
      modifies this
      ensures Valid() && i == old(i) + DigitLen(src[old(i)..]) && w == src[old(i)..i]
    {
      w := [];
      ghost var start := i;
      while i < |src| && IsDigit(src[i])
        invariant start <= i <= |src| && w == src[start..i]
        invariant DigitLen(src[start..]) == i - start + DigitLen(src[i..])
      {
        assert src[i..][1..] == src[i + 1..] && src[i..][0] == src[i];
        w := w + [src[i]];
        i := i + 1;
      }
    }

    method Alnums() returns (w: string)
      requires Valid()
      modifies this
      ensures Valid() && i == old(i) + AlnumLen(src[old(i)..]) && w == src[old(i)..i]
    {
      w := [];
      ghost var start := i;
      while i < |src| && (IsAlpha(src[i]) || IsDigit(src[i]))
        invariant start <= i <= |src| && w == src[start..i]
        invariant AlnumLen(src[start..]) == i - start + AlnumLen(src[i..])
      {
        assert src[i..][1..] == src[i + 1..] && src[i..][0] == src[i];
        w := w + [src[i]];
        i := i + 1;
      }
    }

    method NumberBody() returns (w: string)
      requires Valid() && i < |src| && IsDigit(src[i])
      modifies this
      ensures Valid() && i == old(i) + NumberLen(src[old(i)..]) && w == src[old(i)..i]
    {
      hide DigitLen, AlnumLen;
      ghost var start := i;
      if src[i] == '0' && i + 1 < |src| && (src[i + 1] == 'x' || src[i + 1] == 'X') {
        var prefix := [src[i], src[i + 1]];
        i := i + 2;
        assert src[start..][2..] == src[i..];
        var body := Alnums();
        w := prefix + body;
        assert w == src[start..i];
      } else {
        w := Digits();
      }
    }

    method StringToken() returns (r: Option<Tok>)
      requires Valid() && i < |src| && src[i] == '"'
      modifies this
      ensures Valid()
      ensures match StringBody(src[old(i) + 1..])
              case None => r.None?
              case Some(p) => r == Some(Tok(STRING, p.0)) && i == old(i) + 1 + p.1
    {
      hide StringBody, After, Unescape;
      i := i + 1;
      ghost var start := i;
      var w: string := [];
      StringStart(src[start..]);
      while i < |src| && src[i] != '"'
        invariant start <= i <= |src|
        invariant StringBody(src[start..]) == After(w, i - start, StringBody(src[i..]))
      {
        StringStep(src, i, w, i - start);
        if src[i] == '\\' && i + 1 < |src| {
          w := w + [Unescape(src[i + 1])];
          i := i + 2;
        } else {
          w := w + [src[i]];
          i := i + 1;
        }
      }
      StringEnd(src[i..], w, i - start);
      if i == |src| { return None; }
      i := i + 1;
      return Some(Tok(STRING, w));
    }

    /** One turn of the loop in `tokenize`. */
    method Turn() returns (ok: bool, t: Option<Tok>)
      requires Valid() && i < |src|
      modifies this
      ensures Valid()
      ensures match ScanOne(src[old(i)..])
              case None => !ok
              case Some(r) => ok && t == r.tok && i == old(i) + r.used
    {
      var c := src[i];
      ghost var s := src[i..];
      assert s[0] == c && s[1..] == src[i + 1..];
      ok, t := true, None;
      if c == ' ' || c == '\t' || c == '\r' {
        i := i + 1;
      } else if c == '\n' {
        t := Some(Tok(NEWLINE, "\\n"));
        i := i + 1;
      } else if c == '#' {
        SkipComment();
      } else if c == '"' {
        t := StringToken();
        ok := t.Some?;
      } else if Punctuation(c).Some? {
        t := Some(Tok(Punctuation(c).value, [c]));
        i := i + 1;
      } else if c == '~' {
        i := i + 1;
        if i < |src| && IsWordChar(src[i]) {
          var w := WordBody();
          assert w == s[1..1 + WordLen(s[1..])];
          t := Some(Tok(LABEL, w));
        } else {
          t := Some(Tok(TILDE, "~"));
        }
      } else if c == '-' {
        if i + 1 < |src| && IsDigit(src[i + 1]) {
          i := i + 1;
          var w := NumberBody();
          assert w == s[1..1 + NumberLen(s[1..])];
          var v := NatOf(w);
          if v.None? { return false, None; }
          t := Some(Tok(NUMBER, IntText(Negated(v.value))));
        } else {
          t := Some(Tok(MINUS, "-"));
          i := i + 1;
        }
      } else {
        ok, t := NameOrNumber();
      }
    }

    method NameOrNumber() returns (ok: bool, t: Option<Tok>)
      requires Valid() && i < |src| && Punctuation(src[i]).None?
      requires src[i] !in {' ', '\t', '\r', '\n', '#', '"', '~', '-'}
      modifies this
      ensures Valid()
      ensures match ScanOne(src[old(i)..])
              case None => !ok
              case Some(r) => ok && t == r.tok && i == old(i) + r.used
    {
      hide NumberLen, WordLen, StringBody, CommentLen, NatOf;
      var c := src[i];
      ghost var s := src[i..];
      assert s[0] == c && s[1..] == src[i + 1..];
      if IsDigit(c) {
        var w := NumberBody();
        assert w == s[..NumberLen(s)];
        return true, Some(Tok(NUMBER, w));
      } else if c == '@' {
        i := i + 1;
        if i < |src| && IsAlpha(src[i]) {
          var w := WordBody();
          assert ['@'] + w == s[..1 + WordLen(s[1..])];
          return true, Some(Tok(IDENT, ['@'] + w));
        }
        return false, None;
      } else if IsWordStart(c) {
        var w := WordBody();
        assert w == s[..WordLen(s)];
        return true, Some(Tok(IDENT, w));
      }
      return false, None;
    }

    method SkipComment()
      requires Valid()
      modifies this
      ensures Valid() && i == old(i) + CommentLen(src[old(i)..])
    {
      ghost var start := i;
      while i < |src| && src[i] != '\n'
        invariant start <= i <= |src| && CommentLen(src[start..]) == i - start + CommentLen(src[i..])
      {
        assert src[i..][1..] == src[i + 1..] && src[i..][0] == src[i];
        i := i + 1;
      }
    }

    method Tokenize() returns (r: Option<seq<Tok>>)
      requires Valid() && i == 0
      modifies this
      ensures r == Lex(src)
    {
      hide ScanOne;
      var out: seq<Tok> := [];
      assert src[0..] == src;
      assert forall rest: seq<Tok> :: out + rest == rest;
      while i < |src|
        invariant Valid()
        invariant Lex(src) == (match Lex(src[i..]) case None => None case Some(rest) => Some(out + rest))
        decreases |src| - i
      {
        ghost var at, soFar := i, out;
        var ok, t := Turn();
        if !ok { return None; }
        assert src[at..][i - at..] == src[i..];
        out := out + Keep(t);
        assert forall rest: seq<Tok> :: soFar + (Keep(t) + rest) == out + rest;
      }
      return Some(out + [Tok(EOF, "")]);
    }
  }

  // ---- the expression parser ----

  function Head(ts: seq<Tok>): Kind {
    if ts == [] then EOF else ts[0].kind
  }

  /** A tree and the tokens left. None is a syntax error or a malformed number. */
  type Parsed = Option<(Expr, seq<Tok>)>

  function ParseAdd(ts: seq<Tok>): (r: Parsed)
    ensures r.Some? ==> |r.value.1| < |ts|
    decreases |ts|, 3
  {
    match ParseMul(ts) case None => None case Some(p) => AddTail(p.0, p.1)
  }

  function AddTail(e: Expr, ts: seq<Tok>): (r: Parsed)
    ensures r.Some? ==> |r.value.1| <= |ts|
    decreases |ts|, 3
  {
    if Head(ts) == PLUS || Head(ts) == MINUS then
      match ParseMul(ts[1..])
      case None => None
      case Some(p) => AddTail(Bin(if Head(ts) == PLUS then Plus else Minus, e, p.0), p.1)
    else Some((e, ts))
  }

  function ParseMul(ts: seq<Tok>): (r: Parsed)
    ensures r.Some? ==> |r.value.1| < |ts|
    decreases |ts|, 2
  {
    match ParsePrimary(ts) case None => None case Some(p) => MulTail(p.0, p.1)
  }

  function MulTail(e: Expr, ts: seq<Tok>): (r: Parsed)
    ensures r.Some? ==> |r.value.1| <= |ts|
    decreases |ts|, 2
  {
    if Head(ts) == STAR then
      (match ParsePrimary(ts[1..]) case None => None case Some(p) => MulTail(Bin(Times, e, p.0), p.1))
    else Some((e, ts))
  }

  function ParsePrimary(ts: seq<Tok>): (r: Parsed)
    ensures r.Some? ==> |r.value.1| < |ts|
    decreases |ts|, 1
  {
    match Head(ts)
    case LPAREN =>
      (match ParseAdd(ts[1..])
       case None => None
       case Some(p) => if Head(p.1) == RPAREN then Some((p.0, p.1[1..])) else None)
    case NUMBER => (match IntOf(ts[0].text) case None => None case Some(v) => Some((Num(v), ts[1..])))
    case STRING => Some((Str(ts[0].text), ts[1..]))
    case IDENT =>
      var name := ts[0].text;
      if IsRegName(name) then Some((RegName(name), ts[1..]))
      else if Head(ts[1..]) == DOT then
        if Head(ts[2..]) == IDENT then Some((FieldRef(name, ts[2].text), ts[3..])) else None
      else Some((Ident(name), ts[1..]))
    case _ => None
  }

  /** The parser: a cursor over the tokens, the last of which is EOF. */
  class Parser {
    const tokens: seq<Tok>
    var i: nat

    ghost predicate Valid()
      reads this
    {
      tokens != [] && i < |tokens| && forall k | 0 <= k < |tokens| :: (tokens[k].kind == EOF <==> k == |tokens| - 1)
    }

    function Rest(): seq<Tok>
      reads this
      requires i <= |tokens|
    {
      tokens[i..]
    }

    /** The result of a parse from `before`, and where the cursor is after it. */
    ghost predicate Agrees(r: Option<Expr>, spec: Parsed)
      reads this
    {
      Valid() &&
      match spec
      case None => r.None?
      case Some(p) => r == Some(p.0) && Rest() == p.1
    }

    constructor (tokens: seq<Tok>)
      requires tokens != [] && forall k | 0 <= k < |tokens| :: (tokens[k].kind == EOF <==> k == |tokens| - 1)
      ensures Valid() && Rest() == tokens && this.tokens == tokens
    {
      this.tokens := tokens;
      i := 0;
    }

    function Peek(): Kind
      requires Valid()
      reads this
      ensures Peek() == Head(Rest())
    {
      tokens[i].kind
    }

    /** `_adv`: the cursor does not move past the last token. */
    method Advance()
      requires Valid()
      modifies this
      ensures Valid() && Rest() == if old(Peek()) == EOF then old(Rest()) else old(Rest())[1..]
    {
      if tokens[i].kind != EOF {
        i := i + 1;
      }
    }

    method ExprAdd() returns (r: Option<Expr>)
      requires Valid()
      modifies this
      ensures Agrees(r, ParseAdd(old(Rest())))
      decreases |Rest()|, 3
    {
      ghost var start := Rest();
      r := ExprMul();
      if r.None? { return; }
      while Peek() == PLUS || Peek() == MINUS
        invariant Valid() && r.Some? && |Rest()| < |start|
        invariant ParseAdd(start) == AddTail(r.value, Rest())
        decreases |Rest()|
      {
        var op := if Peek() == PLUS then Plus else Minus;
        Advance();
        var right := ExprMul();
        if right.None? { return None; }
        r := Some(Bin(op, r.value, right.value));
      }
    }

    method ExprMul() returns (r: Option<Expr>)
      requires Valid()
      modifies this
      ensures Agrees(r, ParseMul(old(Rest())))
      decreases |Rest()|, 2
    {
      ghost var start := Rest();
      r := Primary();
      if r.None? { return; }
      while Peek() == STAR
        invariant Valid() && r.Some? && |Rest()| < |start|
        invariant ParseMul(start) == MulTail(r.value, Rest())
        decreases |Rest()|
      {
        Advance();
        var right := Primary();
        if right.None? { return None; }
        r := Some(Bin(Times, r.value, right.value));
      }
    }

    method Primary() returns (r: Option<Expr>)
      requires Valid()
      modifies this
      ensures Agrees(r, ParsePrimary(old(Rest())))
      decreases |Rest()|, 1
    {
      var t := tokens[i];
      if t.kind == LPAREN {
        Advance();
        r := ExprAdd();
        if r.None? { return; }
        if Peek() != RPAREN { return None; }
        Advance();
      } else if t.kind == NUMBER {
        Advance();
        var v := IntOf(t.text);
        r := if v.None? then None else Some(Num(v.value));
      } else if t.kind == STRING {
        Advance();
        r := Some(Str(t.text));
      } else if t.kind == IDENT {
        r := Name(t.text);
      } else {
        r := None;
      }
    }

    method Name(name: string) returns (r: Option<Expr>)
      requires Valid() && tokens[i] == Tok(IDENT, name)
      modifies this
      ensures Agrees(r, ParsePrimary(old(Rest())))
    {
      ghost var start := Rest();
      Advance();
      if IsRegName(name) { return Some(RegName(name)); }
      if Peek() == DOT {
        assert start[1..][1..] == start[2..];
        Advance();
        if Peek() != IDENT { return None; }
        var field := tokens[i].text;
        assert start[2..][1..] == start[3..];
        Advance();
        return Some(FieldRef(name, field));
      }
      return Some(Ident(name));
    }
  }
}
