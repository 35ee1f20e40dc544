/**
 * The field-fmt scanner: a hand-written lexer over a string reader with one
 * rune of pushback.  `ScanAt` is the specification of one call of `Scan`;
 * the class `Scanner` keeps the reader's cursor and the line counter and is
 * proved against it.
 */
module Lex {

  /** The rune `read` returns both at end of input and for a real NUL character. */
  const NUL: char := '\0'

  datatype TokenKind = ILLEGAL | EOF | WS | IDENT | LTM | L_BRACE | R_BRACE | NEWLINE

  datatype Token = Token(kind: TokenKind, lit: string)

  /** Blank and tab; no whitespace character belongs to another class Scan tests. */
  predicate IsWhitespace(ch: char)
    ensures IsWhitespace(ch) ==> !IsLetter(ch) && !IsDigit(ch) && ch != NUL && ch != '\n'
  {
    ch == ' ' || ch == '\t'
  }

  /** ASCII letters and the punctuation . , _ - : ; / ' ( ) @ " *; none is a digit, a newline, a brace or NUL. */
  predicate IsLetter(ch: char)
    ensures IsLetter(ch) ==> !IsDigit(ch) && ch != NUL && ch != '\n' && ch != '{' && ch != '}'
  {
    ('a' <= ch <= 'z') || ('A' <= ch <= 'Z') ||
    ch == '.' || ch == ',' || ch == '_' || ch == '-' || ch == ':' || ch == ';' ||
    ch == '/' || ch == '\'' || ch == '(' || ch == ')' || ch == '@' ||
    ch == '"' || ch == '*'
  }

  /** ASCII decimal digits; none is a newline, a brace or NUL. */
  predicate IsDigit(ch: char)
    ensures IsDigit(ch) ==> ch != NUL && ch != '\n' && ch != '{' && ch != '}'
  {
    '0' <= ch <= '9'
  }

  /** The continuation test of an identifier: letter, digit or underscore. */
  predicate IsIdentPart(ch: char) {
    IsLetter(ch) || IsDigit(ch) || ch == '_'
  }

  /** The underscore test in the identifier loop adds nothing: '_' is already a letter. */
  lemma UnderscoreIsLetter(ch: char)
    ensures IsIdentPart(ch) <==> IsLetter(ch) || IsDigit(ch)
  {
  }

  /** Length of the longest run of characters satisfying `p` that starts at `pos`. */
  function RunLength(s: seq<char>, pos: nat, p: char -> bool): (k: nat)
    requires pos <= |s|
    ensures pos + k <= |s|
    ensures forall j :: pos <= j < pos + k ==> p(s[j])
    ensures pos + k == |s| || !p(s[pos + k])
    decreases |s| - pos
  {
    if pos == |s| || !p(s[pos]) then 0 else 1 + RunLength(s, pos + 1, p)
  }

  /** Outcome of one call of `Scan`: the token and the reader offset it leaves. */
  datatype Step = Step(tok: Token, next: nat)

  /**
   * A run token (whitespace or identifier class): the maximal run starting at
   * `pos`.  The loop stops at the first character outside the class and pushes
   * it back, except a NUL, which it stops at without pushing back.
   */
  function RunStep(s: seq<char>, pos: nat, kind: TokenKind, p: char -> bool): (st: Step)
    requires pos < |s| && p(s[pos])
    ensures st.tok.kind == kind
    ensures 0 < |st.tok.lit| && pos + |st.tok.lit| <= st.next <= |s|
    ensures st.tok.lit == s[pos..pos + |st.tok.lit|]
    ensures forall j :: 0 <= j < |st.tok.lit| ==> p(st.tok.lit[j])
    ensures pos + |st.tok.lit| == |s| || !p(s[pos + |st.tok.lit|])
    ensures st.next == pos + |st.tok.lit| || (st.next == pos + |st.tok.lit| + 1 && s[pos + |st.tok.lit|] == NUL)
  {
    var end := pos + RunLength(s, pos, p);
    Step(Token(kind, s[pos..end]), if end < |s| && s[end] == NUL then end + 1 else end)
  }

  /** What one call of `Scan` returns when the reader stands at `pos` in `s`. */
  function ScanAt(s: seq<char>, pos: nat): (st: Step)
    requires pos <= |s|
    ensures st.next <= |s|
    ensures st.tok.kind == EOF <==> pos == |s| || s[pos] == NUL
    ensures st.tok.kind == EOF ==> st.tok.lit == "" && st.next == (if pos == |s| then pos else pos + 1)
    ensures st.tok.kind != EOF ==>
              && 0 < |st.tok.lit|
              && pos + |st.tok.lit| <= st.next
              && s[pos..pos + |st.tok.lit|] == st.tok.lit
              && (st.next == pos + |st.tok.lit| || (st.next == pos + |st.tok.lit| + 1 && s[pos + |st.tok.lit|] == NUL))
  {
    if pos == |s| then Step(Token(EOF, ""), pos)
    else
      var ch := s[pos];
      if IsWhitespace(ch) then RunStep(s, pos, WS, IsWhitespace)
      else if IsLetter(ch) || IsDigit(ch) then
        var st := RunStep(s, pos, IDENT, IsIdentPart);
        if st.tok.lit == "ltm" then Step(Token(LTM, st.tok.lit), st.next) else st
      else if ch == NUL then Step(Token(EOF, ""), pos + 1)
      else if ch == '\n' then Step(Token(NEWLINE, [ch]), pos + 1)
      else if ch == '{' then Step(Token(L_BRACE, [ch]), pos + 1)
      else if ch == '}' then Step(Token(R_BRACE, [ch]), pos + 1)
      else Step(Token(ILLEGAL, [ch]), pos + 1)
  }

  /** The tokens that repeated calls of `Scan` return before the first EOF. */
  function Tokens(s: seq<char>, pos: nat): (ts: seq<Token>)
    requires pos <= |s|
    ensures forall k :: 0 <= k < |ts| ==> ts[k].kind != EOF && ts[k].lit != ""
    decreases |s| - pos
  {
    var st := ScanAt(s, pos);
    if st.tok.kind == EOF then [] else [st.tok] + Tokens(s, st.next)
  }

  /** The literals of `ts`, concatenated. */
  function Literals(ts: seq<Token>): string {
    if ts == [] then [] else ts[0].lit + Literals(ts[1..])
  }

  function CountChar(s: string, c: char): nat {
    if s == [] then 0 else (if s[0] == c then 1 else 0) + CountChar(s[1..], c)
  }

  function CountKind(ts: seq<Token>, kind: TokenKind): nat {
    if ts == [] then 0 else (if ts[0].kind == kind then 1 else 0) + CountKind(ts[1..], kind)
  }

  predicate NulFree(s: seq<char>) {
    forall j :: 0 <= j < |s| ==> s[j] != NUL
  }

  /** A whitespace token is the maximal non-empty run of blanks and tabs at the cursor. */
  lemma WhitespaceToken(s: seq<char>, pos: nat)
    requires pos < |s| && IsWhitespace(s[pos])
    ensures var t := ScanAt(s, pos).tok;
            && t.kind == WS && t.lit != []
            && t.lit == s[pos..pos + |t.lit|]
            && (forall j :: 0 <= j < |t.lit| ==> IsWhitespace(t.lit[j]))
            && (pos + |t.lit| == |s| || !IsWhitespace(s[pos + |t.lit|]))
  {
  }

  /**
   * A token that starts with a letter or digit is the maximal run of
   * identifier characters; it is LTM exactly when that run is "ltm".
   */
  lemma IdentToken(s: seq<char>, pos: nat)
    requires pos < |s| && (IsLetter(s[pos]) || IsDigit(s[pos]))
    ensures var t := ScanAt(s, pos).tok;
            && (t.kind == LTM || t.kind == IDENT)
            && (t.kind == LTM <==> t.lit == "ltm")
            && t.lit != [] && t.lit == s[pos..pos + |t.lit|]
            && (forall j :: 0 <= j < |t.lit| ==> IsLetter(t.lit[j]) || IsDigit(t.lit[j]))
            && (pos + |t.lit| == |s| || !(IsLetter(s[pos + |t.lit|]) || IsDigit(s[pos + |t.lit|])))
  {
  }

  /** "ltmx" is an identifier, not the reserved word. */
  lemma LtmPrefixIsIdent()
    ensures ScanAt("ltmx {", 0) == Step(Token(IDENT, "ltmx"), 4)
    ensures ScanAt("ltm node", 0) == Step(Token(LTM, "ltm"), 3)
  {
    assert RunLength("ltmx {", 4, IsIdentPart) == 0;
    assert RunLength("ltm node", 3, IsIdentPart) == 0;
  }

  /** Single-character tokens: newline, braces, and any other unclassified character. */
  lemma SingleCharToken(s: seq<char>, pos: nat)
    requires pos < |s|
    requires var ch := s[pos]; !IsWhitespace(ch) && !IsLetter(ch) && !IsDigit(ch) && ch != NUL
    ensures var ch := s[pos];
            ScanAt(s, pos) == Step(Token(if ch == '\n' then NEWLINE
                                         else if ch == '{' then L_BRACE
                                         else if ch == '}' then R_BRACE
                                         else ILLEGAL, [ch]), pos + 1)
  {
  }

  /** Concatenating the literals of all tokens up to EOF gives back a NUL-free input. */
  lemma {:induction false} NothingLost(s: seq<char>, pos: nat)
    requires pos <= |s| && NulFree(s[pos..])
    ensures Literals(Tokens(s, pos)) == s[pos..]
    decreases |s| - pos
  {
    var st := ScanAt(s, pos);
    ScanStep(s, pos);
    if st.tok.kind != EOF {
      NothingLost(s, st.next);
      assert Tokens(s, pos) == [st.tok] + Tokens(s, st.next);
    }
  }

  /**
   * One token of a NUL-free input: EOF only at the end; otherwise the literal
   * is exactly the text consumed, the rest stays NUL-free, and the literal
   * holds a newline only for a NEWLINE token.
   */
  lemma ScanStep(s: seq<char>, pos: nat)
    requires pos <= |s| && NulFree(s[pos..])
    ensures var st := ScanAt(s, pos);
            && (st.tok.kind == EOF <==> pos == |s|)
            && (pos < |s| ==>
                  && st.next == pos + |st.tok.lit|
                  && s[pos..] == st.tok.lit + s[st.next..]
                  && NulFree(s[st.next..])
                  && CountChar(st.tok.lit, '\n') == if st.tok.kind == NEWLINE then 1 else 0)
  {
    var st := ScanAt(s, pos);
    NulFreeAt(s, pos, pos);
    if pos < |s| {
      var n := |st.tok.lit|;
      NulFreeAt(s, pos, pos + n);
      NulFreeSuffix(s, pos, st.next);
      assert s[pos..] == s[pos..st.next] + s[st.next..];
      NewlinesInToken(st.tok);
    }
  }

  lemma NulFreeAt(s: seq<char>, pos: nat, j: nat)
    requires pos <= |s| && NulFree(s[pos..])
    ensures pos <= j < |s| ==> s[j] != NUL
  {
    if pos <= j < |s| {
      assert s[pos..][j - pos] == s[j];
    }
  }

  lemma NulFreeSuffix(s: seq<char>, pos: nat, q: nat)
    requires pos <= q <= |s| && NulFree(s[pos..])
    ensures NulFree(s[q..])
  {
    forall j | 0 <= j < |s[q..]| ensures s[q..][j] != NUL {
      NulFreeAt(s, pos, q + j);
    }
  }

  lemma {:induction false} CountCharAppend(a: string, b: string, c: char)
    ensures CountChar(a + b, c) == CountChar(a, c) + CountChar(b, c)
  {
    if a == [] {
      assert a + b == b;
    } else {
      assert (a + b)[1..] == a[1..] + b;
      CountCharAppend(a[1..], b, c);
    }
  }

  /** Only a NEWLINE token carries a newline character, and it carries exactly one. */
  lemma NewlinesInToken(t: Token)
    requires t.kind == WS || t.kind == IDENT || t.kind == LTM || t.kind == NEWLINE || t.kind == L_BRACE
             || t.kind == R_BRACE || t.kind == ILLEGAL
    requires t.kind == WS ==> forall j :: 0 <= j < |t.lit| ==> IsWhitespace(t.lit[j])
    requires (t.kind == IDENT || t.kind == LTM) ==> forall j :: 0 <= j < |t.lit| ==> IsIdentPart(t.lit[j])
    requires t.kind == NEWLINE ==> t.lit == "\n"
    requires (t.kind == L_BRACE || t.kind == R_BRACE || t.kind == ILLEGAL) ==> |t.lit| == 1 && t.lit[0] != '\n'
    ensures CountChar(t.lit, '\n') == if t.kind == NEWLINE then 1 else 0
  {
    if t.kind != NEWLINE {
      NoNewlineCount(t.lit);
    }
  }

  lemma {:induction false} NoNewlineCount(s: string)
    requires forall j :: 0 <= j < |s| ==> s[j] != '\n'
    ensures CountChar(s, '\n') == 0
  {
    if s != [] {
      NoNewlineCount(s[1..]);
    }
  }

  /**
   * The line counter after scanning to EOF: the number of NEWLINE tokens is the
   * number of newline characters in a NUL-free input.
   */
  lemma {:induction false} LinesCounted(s: seq<char>, pos: nat)
    requires pos <= |s| && NulFree(s[pos..])
    ensures CountKind(Tokens(s, pos), NEWLINE) == CountChar(s[pos..], '\n')
    decreases |s| - pos
  {
    var st := ScanAt(s, pos);
    ScanStep(s, pos);
    if st.tok.kind != EOF {
      LinesCounted(s, st.next);
      assert Tokens(s, pos) == [st.tok] + Tokens(s, st.next);
      assert ([st.tok] + Tokens(s, st.next))[1..] == Tokens(s, st.next);
      CountCharAppend(st.tok.lit, s[st.next..], '\n');
    }
  }

  /**
   * The scanner: a reader over `data` (offset `i`, and `prevRune`, the offset
   * of the rune the last successful read returned, or -1) and the line counter.
   */
  class Scanner {
    const data: seq<char>
    var i: nat
    var prevRune: int
    var line: int

    ghost predicate Valid()
      reads this
    {
      i <= |data| && (prevRune == -1 || prevRune == i - 1)
    }

    constructor (data: seq<char>)
      ensures Valid()
      ensures this.data == data && i == 0 && prevRune == -1 && line == 0
    {
      this.data := data;
      i := 0;
      prevRune := -1;
      line := 0;
    }

    /** Next rune, or NUL at end of input (where the offset stays put). */
    method Read() returns (ch: char)
      requires Valid()
      modifies this`i, this`prevRune
      ensures Valid()
      ensures old(i) < |data| ==> ch == data[old(i)] && i == old(i) + 1 && prevRune == old(i)
      ensures old(i) == |data| ==> ch == NUL && i == old(i) && prevRune == -1
    {
      if i < |data| {
        ch := data[i];
        prevRune := i;
        i := i + 1;
      } else {
        ch := NUL;
        prevRune := -1;
      }
    }

    /** Push back the last rune read; does nothing unless the last operation was a successful read. */
    method Unread()
      requires Valid()
      modifies this`i, this`prevRune
      ensures Valid()
      ensures old(prevRune) >= 0 ==> i == old(prevRune) && prevRune == -1
      ensures old(prevRune) < 0 ==> i == old(i) && prevRune == old(prevRune)
    {
      if i > 0 && prevRune >= 0 {
        i := prevRune;
        prevRune := -1;
      }
    }

    method Scan() returns (tok: TokenKind, lit: string)
      requires Valid()
      modifies this
      ensures Valid()
      ensures ScanAt(data, old(i)) == Step(Token(tok, lit), i)
      ensures line == old(line) + (if tok == NEWLINE then 1 else 0)
    {
      var ch := Read();

      if IsWhitespace(ch) {
        Unread();
        tok, lit := ScanWhitespace();
        return;
      } else if IsLetter(ch) || IsDigit(ch) {
        Unread();
        tok, lit := ScanIdent();
        return;
      }

      if ch == NUL {
        return EOF, "";
      } else if ch == '\n' {
        line := line + 1;
        return NEWLINE, [ch];
      } else if ch == '{' {
        return L_BRACE, [ch];
      } else if ch == '}' {
        return R_BRACE, [ch];
      }

      return ILLEGAL, [ch];
    }

    method ScanWhitespace() returns (tok: TokenKind, lit: string)
      requires Valid() && i < |data| && IsWhitespace(data[i])
      modifies this`i, this`prevRune
      ensures Valid()
      ensures RunStep(data, old(i), WS, IsWhitespace) == Step(Token(tok, lit), i)
    {
      var start := i;
      var ch := Read();
      var buf := [ch];

      while true
        invariant Valid() && start < i <= |data|
        invariant buf == data[start..i]
        invariant forall j :: start <= j < i ==> IsWhitespace(data[j])
        decreases |data| - i
      {
        ch := Read();
        if ch == NUL {
          assert RunStopped(data, start, IsWhitespace, |buf|, i);
          break;
        } else if !IsWhitespace(ch) {
          Unread();
          assert RunStopped(data, start, IsWhitespace, |buf|, i);
          break;
        } else {
          buf := buf + [ch];
        }
      }
      RunFinish(data, start, WS, IsWhitespace, |buf|, i);
      return WS, buf;
    }

    method ScanIdent() returns (tok: TokenKind, lit: string)
      requires Valid() && i < |data| && (IsLetter(data[i]) || IsDigit(data[i]))
      modifies this`i, this`prevRune
      ensures Valid()
      ensures ScanAt(data, old(i)) == Step(Token(tok, lit), i)
    {
      var start := i;
      var ch := Read();
      var buf := [ch];

      while true
        invariant Valid() && start < i <= |data|
        invariant buf == data[start..i]
        invariant forall j :: start <= j < i ==> IsIdentPart(data[j])
        decreases |data| - i
      {
        ch := Read();
        if ch == NUL {
          assert RunStopped(data, start, IsIdentPart, |buf|, i);
          break;
        } else if !IsLetter(ch) && !IsDigit(ch) && ch != '_' {
          Unread();
          assert RunStopped(data, start, IsIdentPart, |buf|, i);
          break;
        } else {
          buf := buf + [ch];
        }
      }
      RunFinish(data, start, IDENT, IsIdentPart, |buf|, i);
      IdentAt(data, start, buf, i);

      if buf == "ltm" {
        return LTM, buf;
      }
      return IDENT, buf;
    }
  }

  /** ScanAt at an identifier start, given where the reader ends up after the run. */
  lemma IdentAt(s: seq<char>, pos: nat, lit: string, next: nat)
    requires pos < |s| && (IsLetter(s[pos]) || IsDigit(s[pos]))
    requires RunStep(s, pos, IDENT, IsIdentPart) == Step(Token(IDENT, lit), next)
    ensures lit == "ltm" ==> ScanAt(s, pos) == Step(Token(LTM, lit), next)
    ensures lit != "ltm" ==> ScanAt(s, pos) == Step(Token(IDENT, lit), next)
  {
  }

  /**
   * How a run loop stops after `k` class characters from `pos`: at end of
   * input or before a non-class character (pushed back), or just past a NUL.
   */
  predicate RunStopped(s: seq<char>, pos: nat, p: char -> bool, k: nat, next: nat) {
    || (next == pos + k && (next == |s| || (next < |s| && s[next] != NUL && !p(s[next]))))
    || (next == pos + k + 1 && next <= |s| && s[pos + k] == NUL)
  }

  /** A loop that read `k` class characters from `pos` and stopped as RunStopped says has produced RunStep. */
  lemma RunFinish(s: seq<char>, pos: nat, kind: TokenKind, p: char -> bool, k: nat, next: nat)
    requires pos < |s| && p(s[pos]) && !p(NUL)
    requires pos + k <= |s| && forall j :: pos <= j < pos + k ==> p(s[j])
    requires RunStopped(s, pos, p, k, next)
    ensures RunStep(s, pos, kind, p) == Step(Token(kind, s[pos..pos + k]), next)
  {
    if next == pos + k + 1 {
      assert !p(s[pos + k]);
    }
    RunEnds(s, pos, p, k);
  }

  /** A run of `k` class characters followed by end of input or a non-class character is the maximal run. */
  lemma {:induction false} RunEnds(s: seq<char>, pos: nat, p: char -> bool, k: nat)
    requires pos + k <= |s|
    requires forall j :: pos <= j < pos + k ==> p(s[j])
    requires pos + k == |s| || !p(s[pos + k])
    ensures RunLength(s, pos, p) == k
    decreases k
  {
    if k > 0 {
      RunEnds(s, pos + 1, p, k - 1);
    }
  }
}
