/** The lexer (internal/lang/lex/lex.go): a scanner over a byte buffer with automatic semicolons and a
    stack of interpolation frames. A byte is a char of the source sequence. */
module Lexing {
  import opened Wrappers

  /** Token kinds (internal/lang/token/token.go). */
  datatype Kind =
    | Illegal | EOF | Semi
    | Ident | Int
    | String(multi: bool) | StringBeg(multi: bool) | StringCont(multi: bool) | StringEnd(multi: bool)
    | LInterp | RInterp
    | Keyword(text: string)
    | Operator(text: string)
    | LBrace | RBrace | LBrack | RBrack | LParen | RParen | Comma

  datatype Token = Token(kind: Kind, pos: nat, end: nat)

  datatype Span = Span(start: nat, end: nat)

  datatype ErrKind = InvalidChar | UnterminatedComment | InvalidNumber | InvalidEscape | UnterminatedString

  datatype Error = Error(kind: ErrKind, start: nat, end: nat)

  /** One open interpolation: its unmatched opening braces, and the flavour of the string around it. */
  datatype Frame = Frame(braces: int, multi: bool)

  const KEYWORDS: set<string> := {
    "module", "import", "let", "func", "decl", "type", "enum", "for", "in", "if", "else", "return",
    "true", "false", "none", "self", "pub" }

  /** Does a newline after this token end the statement? */
  predicate EndsStatement(k: Kind) {
    match k
    case Ident | Int | String(_) | StringEnd(_) | RBrace | RBrack | RParen => true
    case Keyword(t) => t in {"true", "false", "none", "self", "return"}
    case _ => false
  }

  function Lookup(s: string): Kind {
    if s in KEYWORDS then Keyword(s) else Ident
  }

  // Character classes
  // ---------------------------------------------------------------------------

  predicate IsIdentStart(c: char) {
    'a' <= c <= 'z' || 'A' <= c <= 'Z' || c == '_'
  }

  predicate IsDigit(c: char) {
    '0' <= c <= '9'
  }

  predicate IsIdentCont(c: char) {
    IsIdentStart(c) || IsDigit(c)
  }

  predicate IsHexDigit(c: char) {
    IsDigit(c) || 'a' <= c <= 'f' || 'A' <= c <= 'F'
  }

  predicate IsBinDigit(c: char) {
    c == '0' || c == '1'
  }

  predicate IsOctDigit(c: char) {
    '0' <= c <= '7'
  }

  ghost predicate IsRadix(x: char) {
    x in {'x', 'X', 'b', 'B', 'o', 'O'}
  }

  /** The digits that may follow a radix prefix. */
  ghost predicate IsRadixDigit(x: char, c: char) {
    if x == 'x' || x == 'X' then IsHexDigit(c)
    else if x == 'b' || x == 'B' then IsBinDigit(c)
    else (x == 'o' || x == 'O') && IsOctDigit(c)
  }

  predicate IsValidEscape(c: char) {
    c in {'n', 't', 'r', '\\', '\"', '`', '$', '0'}
  }

  function SegmentKind(first: bool, end: bool, multi: bool): Kind {
    if first && end then String(multi)
    else if first then StringBeg(multi)
    else if end then StringEnd(multi)
    else StringCont(multi)
  }

  ghost predicate IsOrdinary(k: Kind) {
    k.Illegal? || k.Ident? || k.Int? || k.String? || k.Keyword? || k.Operator? || k.LBrack? || k.RBrack?
    || k.LParen? || k.RParen? || k.Comma?
  }

  ghost predicate IsPunct(k: Kind) {
    k.Operator? || k.LBrace? || k.RBrace? || k.LBrack? || k.RBrack? || k.LParen? || k.RParen? || k.Comma?
  }

  ghost function B(b: bool): nat {
    if b then 1 else 0
  }

  /** The operators and delimiters: what c, looked at with the byte after it, stands for, and its length. */
  function Punct(c: char, peek: Option<char>): (r: Option<(Kind, nat)>)
    ensures r.Some? ==> 1 <= r.value.1 <= 1 + B(peek.Some?)
    ensures r.Some? ==> (r.value.0 == LBrace <==> c == '{') && (r.value.0 == RBrace <==> c == '}')
    ensures r.Some? ==> IsPunct(r.value.0)
    ensures c == '{' || c == '}' ==> r.Some?
  {
    match c
    case '+' => Some((Operator("+"), 1))
    case '-' => Some((Operator("-"), 1))
    case '*' => Some((Operator("*"), 1))
    case '/' => Some((Operator("/"), 1))
    case '%' => Some((Operator("%"), 1))
    case '=' => Some(if peek == Some('=') then (Operator("=="), 2) else (Operator("="), 1))
    case '!' => Some(if peek == Some('=') then (Operator("!="), 2) else (Operator("!"), 1))
    case '<' => Some(if peek == Some('=') then (Operator("<="), 2) else (Operator("<"), 1))
    case '>' => Some(if peek == Some('=') then (Operator(">="), 2) else (Operator(">"), 1))
    case '&' => if peek == Some('&') then Some((Operator("&&"), 2)) else None
    case '|' => if peek == Some('|') then Some((Operator("||"), 2)) else None
    case ':' => Some((Operator(":"), 1))
    case '.' => Some((Operator("."), 1))
    case '?' => Some((Operator("?"), 1))
    case '@' => Some((Operator("@"), 1))
    case ',' => Some((Comma, 1))
    case '{' => Some((LBrace, 1))
    case '}' => Some((RBrace, 1))
    case '[' => Some((LBrack, 1))
    case ']' => Some((RBrack, 1))
    case '(' => Some((LParen, 1))
    case ')' => Some((RParen, 1))
    case _ => None
  }

  predicate IsBlank(src: string, i: nat)
    requires i < |src|
  {
    src[i] in {' ', '\t', '\r', '\n'} || PairAt(src, i, '/', '/') || PairAt(src, i, '/', '*')
  }

  function PeekAt(src: string, i: nat): Option<char> {
    if i + 1 < |src| then Some(src[i + 1]) else None
  }

  // Where comments and string text end
  // ---------------------------------------------------------------------------

  /** A newline at some position in start..end. */
  ghost predicate HasNewline(src: string, start: nat, end: nat)
    requires end <= |src|
  {
    exists i :: start <= i < end && src[i] == '\n'
  }

  lemma NewlineSplit(src: string, start: nat, mid: nat, end: nat)
    requires start <= mid <= end <= |src|
    ensures HasNewline(src, start, end) <==> HasNewline(src, start, mid) || HasNewline(src, mid, end)
  {
  }

  lemma NoNewline(src: string, i: nat)
    requires i <= |src|
    ensures !HasNewline(src, i, i)
  {
  }

  lemma NewlineAt(src: string, i: nat)
    requires i < |src|
    ensures HasNewline(src, i, i + 1) <==> src[i] == '\n'
  {
    assert src[i] == '\n' ==> i <= i < i + 1;
  }

  /** Does src have the two bytes at i? */
  predicate PairAt(src: string, i: nat, a: char, b: char) {
    i + 1 < |src| && src[i] == a && src[i + 1] == b
  }

  /** The end of a nested block comment, read from i with depth openings to close. */
  ghost function CommentEnd(src: string, i: nat, depth: nat): (end: nat)
    requires i <= |src|
    ensures i <= end <= |src|
    decreases |src| - i
  {
    if i == |src| || depth == 0 then i
    else if PairAt(src, i, '/', '*') then CommentEnd(src, i + 2, depth + 1)
    else if PairAt(src, i, '*', '/') then CommentEnd(src, i + 2, depth - 1)
    else CommentEnd(src, i + 1, depth)
  }

  /** Does the comment read from i close its openings before the source ends? */
  ghost predicate CommentCloses(src: string, i: nat, depth: nat)
    requires i <= |src|
    decreases |src| - i
  {
    if depth == 0 then true
    else if i == |src| then false
    else if PairAt(src, i, '/', '*') then CommentCloses(src, i + 2, depth + 1)
    else if PairAt(src, i, '*', '/') then CommentCloses(src, i + 2, depth - 1)
    else CommentCloses(src, i + 1, depth)
  }

  lemma {:induction false} UnclosedRunsOut(src: string, i: nat, depth: nat)
    requires i <= |src| && !CommentCloses(src, i, depth)
    ensures CommentEnd(src, i, depth) == |src|
    decreases |src| - i
  {
    if i < |src| {
      if PairAt(src, i, '/', '*') {
        UnclosedRunsOut(src, i + 2, depth + 1);
      } else if PairAt(src, i, '*', '/') {
        UnclosedRunsOut(src, i + 2, depth - 1);
      } else {
        UnclosedRunsOut(src, i + 1, depth);
      }
    }
  }

  /** The text of a segment ends at an opening marker, the closing delimiter, or a line break that the
      flavour does not allow. */
  predicate StopsAt(src: string, i: nat, multi: bool)
    requires i < |src|
  {
    PairAt(src, i, '$', '{') || src[i] == (if multi then '`' else '\"') || (src[i] == '\n' && !multi)
  }

  /** The end of the text that starts at i; a backslash hides the byte after it. */
  ghost function TextEnd(src: string, i: nat, multi: bool): (end: nat)
    requires i <= |src|
    ensures i <= end <= |src|
    decreases |src| - i
  {
    if i == |src| || StopsAt(src, i, multi) then i
    else if src[i] == '\\' && i + 1 < |src| then TextEnd(src, i + 2, multi)
    else TextEnd(src, i + 1, multi)
  }

  ghost function LineEnd(src: string, i: nat): (end: nat)
    requires i <= |src|
    ensures i <= end <= |src|
    decreases |src| - i
  {
    if i == |src| || src[i] == '\n' then i else LineEnd(src, i + 1)
  }

  ghost predicate IsComment(src: string, i: nat) {
    PairAt(src, i, '/', '/') || PairAt(src, i, '/', '*')
  }

  /** The end of the white space byte or the comment at i. */
  ghost function AfterBlank(src: string, i: nat): (end: nat)
    requires i < |src| && IsBlank(src, i)
    ensures i < end <= |src|
  {
    if PairAt(src, i, '/', '/') then LineEnd(src, i + 2)
    else if PairAt(src, i, '/', '*') then CommentEnd(src, i + 2, 1)
    else i + 1
  }

  /** The first byte from i on that is neither white space nor part of a comment. */
  ghost function BlankEnd(src: string, i: nat): (end: nat)
    requires i <= |src|
    ensures i <= end <= |src|
    decreases |src| - i
  {
    if i == |src| || !IsBlank(src, i) then i else BlankEnd(src, AfterBlank(src, i))
  }

  /** Where the white space bytes and the comments start that lie between i and stop. */
  ghost function Blanks(src: string, i: nat, stop: nat): (ps: seq<nat>)
    requires i <= |src|
    ensures forall p :: p in ps ==> i <= p < stop && p < |src| && IsBlank(src, p)
    decreases |src| - i
  {
    if i >= stop || i == |src| || !IsBlank(src, i) then []
    else [i] + Blanks(src, AfterBlank(src, i), stop)
  }

  /** Blanks and nothing else lead from i to m. */
  ghost predicate BlankPath(src: string, i: nat, m: nat)
    requires i <= |src|
    decreases |src| - i
  {
    i == m || (i < m && i < |src| && IsBlank(src, i) && BlankPath(src, AfterBlank(src, i), m))
  }

  lemma {:induction false} OneBlankMore(src: string, i: nat, m: nat)
    requires i <= |src| && m < |src| && BlankPath(src, i, m) && IsBlank(src, m)
    ensures BlankPath(src, i, AfterBlank(src, m))
    ensures Blanks(src, i, AfterBlank(src, m)) == Blanks(src, i, m) + [m]
    decreases |src| - i
  {
    hide IsBlank;
    if i < m {
      OneBlankMore(src, AfterBlank(src, i), m);
    }
  }

  lemma {:induction false} PathEnd(src: string, i: nat, m: nat)
    requires i <= |src| && BlankPath(src, i, m)
    ensures i <= m <= |src| && BlankEnd(src, m) == BlankEnd(src, i)
    decreases |src| - i
  {
    hide IsBlank;
    if i < m {
      PathEnd(src, AfterBlank(src, i), m);
    }
  }

  lemma NoBlanks(src: string, i: nat)
    requires i <= |src|
    ensures Blanks(src, i, i) == [] && CommentErrors(src, []) == [] && CommentSpans(src, []) == []
  {
  }

  // What is wrong with a source
  // ---------------------------------------------------------------------------

  /** Where the escapes of the text from i on start. */
  ghost function Escapes(src: string, i: nat, multi: bool): (ps: seq<nat>)
    requires i <= |src|
    decreases |src| - i
  {
    if i == |src| || StopsAt(src, i, multi) then []
    else if src[i] == '\\' then [i] + Escapes(src, if i + 1 < |src| then i + 2 else i + 1, multi)
    else Escapes(src, i + 1, multi)
  }

  /** How many backslashes stand right before p, not counting any before `from`. */
  ghost function Backslashes(src: string, from: nat, p: nat): nat
    requires from <= p <= |src|
  {
    if p == from || src[p - 1] != '\\' then 0 else 1 + Backslashes(src, from, p - 1)
  }

  /** A backslash that no other one hides. */
  ghost predicate IsEscape(src: string, from: nat, p: nat) {
    from <= p < |src| && src[p] == '\\' && Backslashes(src, from, p) % 2 == 0
  }

  lemma {:induction false} EscapesAreUnhidden(src: string, from: nat, i: nat, multi: bool)
    requires from <= i <= |src| && Backslashes(src, from, i) % 2 == 0
    ensures forall p: nat :: p in Escapes(src, i, multi) <==>
      i <= p < TextEnd(src, i, multi) && IsEscape(src, from, p)
    decreases |src| - i
  {
    if i < |src| && !StopsAt(src, i, multi) {
      var next := if src[i] == '\\' && i + 1 < |src| then i + 2 else i + 1;
      if src[i] == '\\' && i + 1 < |src| {
        assert Backslashes(src, from, i + 1) == 1 + Backslashes(src, from, i);
        assert !IsEscape(src, from, i + 1);
        assert Backslashes(src, from, i + 2) == if src[i + 1] == '\\' then 2 + Backslashes(src, from, i) else 0;
      }
      if next < |src| || src[i] != '\\' {
        EscapesAreUnhidden(src, from, next, multi);
      }
    }
  }

  /** The text of a segment ends at the first delimiter, opening marker or, in a string of one line, newline that
      no backslash hides. */
  lemma {:induction false} TextEndsAtFirstStop(src: string, from: nat, i: nat, multi: bool)
    requires from <= i <= |src| && Backslashes(src, from, i) % 2 == 0
    ensures var end := TextEnd(src, i, multi);
      && (end < |src| ==> IsStop(src, end, multi) && Backslashes(src, from, end) % 2 == 0)
      && forall p: nat :: i <= p < end && Backslashes(src, from, p) % 2 == 0 ==> !IsStop(src, p, multi)
    decreases |src| - i
  {
    if i < |src| && !StopsAt(src, i, multi) {
      if src[i] == '\\' && i + 1 < |src| {
        assert Backslashes(src, from, i + 1) == 1 + Backslashes(src, from, i);
        assert Backslashes(src, from, i + 2) == if src[i + 1] == '\\' then 2 + Backslashes(src, from, i) else 0;
        TextEndsAtFirstStop(src, from, i + 2, multi);
      } else if src[i] != '\\' {
        TextEndsAtFirstStop(src, from, i + 1, multi);
      }
    }
  }

  ghost predicate IsStop(src: string, p: nat, multi: bool)
    requires p < |src|
  {
    if multi then src[p] == '`' || (src[p] == '$' && p + 1 < |src| && src[p + 1] == '{')
    else src[p] == '\"' || src[p] == '\n' || (src[p] == '$' && p + 1 < |src| && src[p + 1] == '{')
  }

  /** An escape that stands for nothing: at the very end, or of an unknown character outside a string of many
      lines. */
  ghost predicate IsBadEscape(src: string, p: nat, multi: bool) {
    || p + 1 >= |src|
    || (!multi && src[p + 1] !in ['n', 't', 'r', '\\', '\"', '`', '$', '0'])
  }

  lemma BadEscapes(src: string, p: nat, multi: bool)
    ensures p + 1 >= |src| ==> IsBadEscape(src, p, multi)
    ensures p + 1 < |src| ==> (IsBadEscape(src, p, multi) <==> !multi && !IsValidEscape(src[p + 1]))
  {
  }

  lemma TextGoesOn(src: string, i: nat, multi: bool)
    requires i < |src| && !StopsAt(src, i, multi)
    ensures var next := if src[i] == '\\' && i + 1 < |src| then i + 2 else i + 1;
      && TextEnd(src, i, multi) == TextEnd(src, next, multi)
      && Escapes(src, i, multi) == (if src[i] == '\\' then [i] else []) + Escapes(src, next, multi)
  {
    hide StopsAt;
  }

  lemma TextStops(src: string, i: nat, multi: bool)
    requires i <= |src| && (i == |src| || StopsAt(src, i, multi))
    ensures TextEnd(src, i, multi) == i && Escapes(src, i, multi) == []
  {
    hide StopsAt;
  }

  lemma NoEscapes(src: string, multi: bool)
    ensures EscapeErrors(src, [], multi) == []
  {
  }

  ghost function EscapeError(src: string, p: nat): Error {
    Error(InvalidEscape, p, if p + 1 < |src| then p + 2 else p + 1)
  }

  ghost function EscapeErrors(src: string, ps: seq<nat>, multi: bool): seq<Error> {
    if ps == [] then []
    else
      var p := ps[|ps| - 1];
      EscapeErrors(src, ps[..|ps| - 1], multi) + (if IsBadEscape(src, p, multi) then [EscapeError(src, p)] else [])
  }

  lemma EscapeErrorsAppend(src: string, ps: seq<nat>, p: nat, multi: bool)
    ensures EscapeErrors(src, ps + [p], multi) ==
      EscapeErrors(src, ps, multi) + (if IsBadEscape(src, p, multi) then [EscapeError(src, p)] else [])
  {
    assert (ps + [p])[..|ps|] == ps;
  }

  lemma {:induction false} EscapeErrorsAre(src: string, ps: seq<nat>, multi: bool, e: Error)
    ensures e in EscapeErrors(src, ps, multi) <==>
      exists p :: p in ps && IsBadEscape(src, p, multi) && e == EscapeError(src, p)
    decreases |ps|
  {
    if ps != [] {
      EscapeErrorsAre(src, ps[..|ps| - 1], multi, e);
      assert ps == ps[..|ps| - 1] + [ps[|ps| - 1]];
    }
  }

  ghost predicate IsOpenComment(src: string, p: nat) {
    PairAt(src, p, '/', '*') && !CommentCloses(src, p + 2, 1)
  }

  ghost function CommentErrors(src: string, ps: seq<nat>): seq<Error> {
    if ps == [] then []
    else
      var p := ps[|ps| - 1];
      CommentErrors(src, ps[..|ps| - 1]) +
      (if IsOpenComment(src, p) then [Error(UnterminatedComment, p, |src|)] else [])
  }

  lemma CommentErrorsAppend(src: string, ps: seq<nat>, p: nat)
    ensures CommentErrors(src, ps + [p]) ==
      CommentErrors(src, ps) + (if IsOpenComment(src, p) then [Error(UnterminatedComment, p, |src|)] else [])
  {
    assert (ps + [p])[..|ps|] == ps;
  }

  lemma {:induction false} CommentErrorsAre(src: string, ps: seq<nat>, e: Error)
    ensures e in CommentErrors(src, ps) <==>
      exists p :: p in ps && IsOpenComment(src, p) && e == Error(UnterminatedComment, p, |src|)
    decreases |ps|
  {
    if ps != [] {
      CommentErrorsAre(src, ps[..|ps| - 1], e);
      assert ps == ps[..|ps| - 1] + [ps[|ps| - 1]];
    }
  }

  ghost function CommentSpans(src: string, ps: seq<nat>): seq<Span> {
    if ps == [] then []
    else
      var p := ps[|ps| - 1];
      CommentSpans(src, ps[..|ps| - 1]) + (if IsComment(src, p) then [Span(p, AfterBlank(src, p))] else [])
  }

  lemma CommentSpansAppend(src: string, ps: seq<nat>, p: nat)
    ensures CommentSpans(src, ps + [p]) ==
      CommentSpans(src, ps) + (if IsComment(src, p) then [Span(p, AfterBlank(src, p))] else [])
  {
    assert (ps + [p])[..|ps|] == ps;
  }

  // Tokens and the text they stand for
  // ---------------------------------------------------------------------------

  /** A longest run of identifier characters. */
  ghost predicate IsWord(src: string, start: nat, end: nat) {
    && start < end <= |src|
    && (forall i :: start <= i < end ==> IsIdentCont(src[i]))
    && (end < |src| ==> !IsIdentCont(src[end]))
  }

  ghost predicate HasPrefix(src: string, start: nat) {
    start + 1 < |src| && src[start] == '0' && IsRadix(src[start + 1])
  }

  /** The numbers: decimal digits, or a radix prefix and at least one digit of that radix. */
  ghost predicate IsNumber(src: string, start: nat, end: nat) {
    && start < end <= |src|
    && ((forall i :: start <= i < end ==> IsDigit(src[i]))
        || (HasPrefix(src, start) && end > start + 2
            && forall i :: start + 2 <= i < end ==> IsRadixDigit(src[start + 1], src[i])))
  }

  /** What is reported in place of a number: the whole word, or a prefix that no digit follows alone. */
  ghost predicate IsBadNumber(src: string, start: nat, end: nat) {
    || (IsWord(src, start, end) && !IsNumber(src, start, end))
    || (HasPrefix(src, start) && end == start + 2 && (end < |src| ==> !IsRadixDigit(src[start + 1], src[end])))
  }

  /** No word that goes on after stop is a number. */
  ghost predicate SpoilsNumber(src: string, start: nat, stop: nat)
    requires start < stop <= |src|
  {
    forall end :: stop < end <= |src| ==> !IsNumber(src, start, end)
  }

  lemma DecimalSpoils(src: string, start: nat, stop: nat)
    requires start < stop <= |src| && !HasPrefix(src, start) && (stop < |src| ==> !IsDigit(src[stop]))
    ensures SpoilsNumber(src, start, stop)
  {
  }

  lemma RadixSpoils(src: string, start: nat, stop: nat)
    requires HasPrefix(src, start) && start + 2 <= stop <= |src|
    requires stop < |src| ==> !IsRadixDigit(src[start + 1], src[stop])
    ensures SpoilsNumber(src, start, stop)
  {
    assert !IsDigit(src[start + 1]);
  }

  lemma StrayLexeme(src: string, i: nat)
    requires i < |src| && !IsIdentStart(src[i]) && !IsDigit(src[i]) && !IsQuote(src[i])
    requires Punct(src[i], PeekAt(src, i)) == None
    ensures Lexeme(src, Token(Illegal, i, i + 1))
  {
    hide Punct;
  }

  lemma NumberLexeme(src: string, tok: Token)
    requires tok.pos < tok.end <= |src| && IsDigit(src[tok.pos])
    requires if tok.kind.Int? then IsWord(src, tok.pos, tok.end) && IsNumber(src, tok.pos, tok.end)
             else tok.kind.Illegal? && IsBadNumber(src, tok.pos, tok.end)
    ensures Lexeme(src, tok)
  {
    hide IsNumber, IsBadNumber, IsWord;
  }

  /** Everything that is read as punctuation. */
  ghost function Spellings(): set<string> {
    {"+", "-", "*", "/", "%", "=", "==", "!", "!=", "<", "<=", ">", ">=", "&&", "||", ":", ".", "?", "@", ",",
     "{", "}", "[", "]", "(", ")"}
  }

  ghost function Spelling(k: Kind): string
    requires IsPunct(k) || k.RInterp?
  {
    match k
    case Operator(text) => text
    case Comma => ","
    case LBrace => "{"
    case RBrace | RInterp => "}"
    case LBrack => "["
    case RBrack => "]"
    case LParen => "("
    case RParen => ")"
  }

  /** Does w stand at position i? */
  ghost predicate StandsAt(src: string, i: nat, w: string) {
    i + |w| <= |src| && src[i..i + |w|] == w
  }

  lemma OneOrTwo(src: string, i: nat, w: string)
    requires i < |src| && w in Spellings()
    ensures |w| == 1 || |w| == 2
    ensures |w| == 1 ==> (StandsAt(src, i, w) <==> src[i] == w[0])
    ensures |w| == 2 ==> (StandsAt(src, i, w) <==> src[i] == w[0] && PeekAt(src, i) == Some(w[1]))
  {
    if |w| == 2 && i + 2 <= |src| {
      assert src[i..i + 2] == [src[i], src[i + 1]];
      assert w == [w[0], w[1]];
    }
    if |w| == 1 {
      assert src[i..i + 1] == [src[i]];
      assert w == [w[0]];
    }
  }

  /** What Punct reads is the longest spelling at that place, and it reads nothing only where there is none. */
  lemma PunctIsLongest(src: string, i: nat, w: string)
    requires i < |src| && w in Spellings() && StandsAt(src, i, w)
    ensures Punct(src[i], PeekAt(src, i)).Some? && |w| <= Punct(src[i], PeekAt(src, i)).value.1
  {
    hide StandsAt;
    OneOrTwo(src, i, w);
  }

  lemma PunctIsSpelled(src: string, i: nat)
    requires i < |src| && Punct(src[i], PeekAt(src, i)).Some?
    ensures var (k, n) := Punct(src[i], PeekAt(src, i)).value;
      i + n <= |src| && Spelling(k) == src[i..i + n] && Spelling(k) in Spellings()
  {
    var (k, n) := Punct(src[i], PeekAt(src, i)).value;
    assert src[i..i + 1] == [src[i]];
    if n == 2 {
      assert src[i..i + 2] == [src[i], src[i + 1]];
    }
  }

  /** A punctuation token is spelled as its kind says and is the longest one there; a character that is reported
      on its own starts none. */
  lemma PunctuationIsLongest(src: string, tok: Token, w: string)
    requires Lexeme(src, tok) && w in Spellings() && tok.pos < tok.end
    ensures IsPunct(tok.kind) || tok.kind.RInterp? ==>
      Spelling(tok.kind) == src[tok.pos..tok.end] && Spelling(tok.kind) in Spellings()
    ensures IsPunct(tok.kind) && StandsAt(src, tok.pos, w) ==> |w| <= tok.end - tok.pos
    ensures tok.kind.Illegal? && !IsDigit(src[tok.pos]) ==> !StandsAt(src, tok.pos, w)
  {
    hide Punct, StandsAt, IsBadNumber, TextEnd, Spellings;
    if Punct(src[tok.pos], PeekAt(src, tok.pos)).Some? {
      PunctIsSpelled(src, tok.pos);
    }
    if StandsAt(src, tok.pos, w) {
      PunctIsLongest(src, tok.pos, w);
    }
    if tok.kind.RInterp? {
      assert src[tok.pos..tok.end] == "}";
      BraceIsSpelling();
    }
  }

  lemma BraceIsSpelling()
    ensures "}" in Spellings()
  {
  }

  /** The characters of words and numbers, by their ASCII codes. */
  lemma CharacterClasses(c: char)
    ensures var n := c as int;
      && (IsDigit(c) <==> 48 <= n <= 57)
      && (IsIdentStart(c) <==> 65 <= n <= 90 || n == 95 || 97 <= n <= 122)
      && (IsIdentCont(c) <==> 48 <= n <= 57 || 65 <= n <= 90 || n == 95 || 97 <= n <= 122)
      && (IsHexDigit(c) <==> 48 <= n <= 57 || 65 <= n <= 70 || 97 <= n <= 102)
      && (IsOctDigit(c) <==> 48 <= n <= 55)
      && (IsBinDigit(c) <==> 48 <= n <= 49)
  {
  }

  /** A token that starts with a digit is a number exactly when the whole word there is one. */
  lemma NumberIffWordIs(src: string, tok: Token, end: nat)
    requires Lexeme(src, tok) && tok.pos < tok.end && IsDigit(src[tok.pos]) && (tok.kind.Int? || tok.kind.Illegal?)
    requires IsWord(src, tok.pos, end)
    ensures tok.kind.Int? <==> IsNumber(src, tok.pos, end)
    ensures tok.kind.Int? ==> tok.end == end
  {
    hide IsRadixDigit;
    assert Punct(src[tok.pos], PeekAt(src, tok.pos)) == None;
    if tok.kind.Int? || IsWord(src, tok.pos, tok.end) {
      WordUnique(src, tok.pos, tok.end, end);
    } else {
      assert IsIdentCont(src[tok.pos]) && IsIdentCont(src[tok.pos + 1]);
      assert end != tok.pos + 1;
      RadixSpoils(src, tok.pos, tok.end);
    }
  }

  lemma WordUnique(src: string, start: nat, end: nat, other: nat)
    requires IsWord(src, start, end) && IsWord(src, start, other)
    ensures end == other
  {
  }

  /** The text of a token fits its kind. */
  ghost predicate Lexeme(src: string, tok: Token) {
    && tok.pos <= tok.end <= |src|
    && match tok.kind
       case Semi | EOF => true
       case Ident =>
         IsWord(src, tok.pos, tok.end) && IsIdentStart(src[tok.pos]) && src[tok.pos..tok.end] !in KEYWORDS
       case Keyword(text) =>
         && IsWord(src, tok.pos, tok.end) && IsIdentStart(src[tok.pos])
         && text == src[tok.pos..tok.end] && text in KEYWORDS
       case Int => IsWord(src, tok.pos, tok.end) && IsDigit(src[tok.pos]) && IsNumber(src, tok.pos, tok.end)
       case String(m) =>
         OpensString(src, tok.pos, m) && tok.end == TextEnd(src, tok.pos, m) && !PairAt(src, tok.end, '$', '{')
       case StringBeg(m) =>
         OpensString(src, tok.pos, m) && tok.end == TextEnd(src, tok.pos, m) && PairAt(src, tok.end, '$', '{')
       case StringCont(m) => tok.end == TextEnd(src, tok.pos, m) && PairAt(src, tok.end, '$', '{')
       case StringEnd(m) => tok.end == TextEnd(src, tok.pos, m) && !PairAt(src, tok.end, '$', '{')
       case LInterp => PairAt(src, tok.pos, '$', '{') && tok.end == tok.pos + 2
       case RInterp => tok.end == tok.pos + 1 && src[tok.pos] == '}'
       case Illegal =>
         && tok.pos < tok.end
         && if IsDigit(src[tok.pos]) then IsBadNumber(src, tok.pos, tok.end)
            else tok.end == tok.pos + 1 && !IsIdentStart(src[tok.pos]) && !IsQuote(src[tok.pos])
                 && Punct(src[tok.pos], PeekAt(src, tok.pos)) == None
       case _ => tok.pos < tok.end && Punct(src[tok.pos], PeekAt(src, tok.pos)) == Some((tok.kind, tok.end - tok.pos))
  }

  /** Tokens that go on inside a string, where there are no blanks to skip. */
  ghost predicate Resumes(k: Kind) {
    k.LInterp? || k.StringCont? || k.StringEnd?
  }

  ghost function NumberErrors(tok: Token): seq<Error> {
    if tok.kind.Illegal? then [Error(InvalidNumber, tok.pos, tok.end)] else []
  }

  predicate IsQuote(c: char) {
    c == '\"' || c == '`'
  }

  predicate OpensString(src: string, i: nat, multi: bool) {
    1 <= i <= |src| && src[i - 1] == if multi then '`' else '\"'
  }

  /** Where a token starts; the span of a string begins after its delimiter. */
  ghost function TokenStart(tok: Token): int {
    if tok.kind.String? || tok.kind.StringBeg? then tok.pos - 1 else tok.pos
  }

  /** Where the text that belongs to a token stops; a closed string has its delimiter after its span. */
  ghost function After(src: string, tok: Token): (end: nat)
    requires tok.end <= |src|
    ensures tok.end <= end <= |src|
  {
    if IsClosed(src, tok) then tok.end + 1 else tok.end
  }

  predicate IsClosed(src: string, tok: Token)
    requires tok.end <= |src|
  {
    (tok.kind.String? || tok.kind.StringEnd?) && tok.end < |src|
    && src[tok.end] == (if tok.kind.multi then '`' else '\"')
  }

  ghost predicate IsSegment(k: Kind) {
    k.String? || k.StringBeg? || k.StringCont? || k.StringEnd?
  }

  /** The blanks that are skipped between `from` and the token. */
  ghost function Gap(src: string, from: nat, tok: Token): (ps: seq<nat>)
    requires from <= |src|
    ensures forall p :: p in ps ==> p < |src| && IsBlank(src, p)
  {
    if Resumes(tok.kind) || TokenStart(tok) < 0 then []
    else Blanks(src, from, if tok.kind.Semi? then tok.end else TokenStart(tok))
  }

  /** What is wrong with the text of a token: its bad escapes, and that it is not closed; or all of it. */
  ghost function TokenErrors(src: string, tok: Token): seq<Error>
    requires tok.pos <= tok.end <= |src|
  {
    if IsSegment(tok.kind) then
      EscapeErrors(src, Escapes(src, tok.pos, tok.kind.multi), tok.kind.multi) +
      (if (tok.kind.String? || tok.kind.StringEnd?) && !IsClosed(src, tok) then
         [Error(UnterminatedString, if tok.pos > 0 then tok.pos - 1 else 0, tok.end)]
       else [])
    else if tok.kind.Illegal? && tok.pos < tok.end then
      [Error(if IsDigit(src[tok.pos]) then InvalidNumber else InvalidChar, tok.pos, tok.end)]
    else []
  }

  /** Everything wrong from `from` to the end of the token. */
  ghost function ErrorsTo(src: string, from: nat, tok: Token): seq<Error>
    requires from <= |src| && tok.pos <= tok.end <= |src|
  {
    CommentErrors(src, Gap(src, from, tok)) + TokenErrors(src, tok)
  }

  /** Only blanks lie between `from` and the token, and nothing at all before the rest of a string or the
      marker that opens an interpolation. A semicolon covers no other text. */
  ghost predicate Follows(src: string, from: nat, tok: Token)
    requires from <= |src| && tok.end <= |src|
  {
    match tok.kind
    case Semi => from <= tok.pos && BlankEnd(src, tok.end) == BlankEnd(src, from)
    case k => TokenStart(tok) == if Resumes(k) then from else BlankEnd(src, from)
  }

  // Well nested token streams
  // ---------------------------------------------------------------------------

  datatype Phase =
    | Plain
    | Opened(multi: bool)    // a segment ended at an opening marker, which must come next
    | Closed(multi: bool)    // an interpolation was closed; its string must go on

  /** What a reader of the stream knows: the open interpolations, what is due, and whether a statement
      can end here. */
  datatype Nest = Nest(frames: seq<Frame>, phase: Phase, ends: bool)

  /** How far apart braces are counted: only inside an interpolation, and there the last one closes it. */
  function Braced(frames: seq<Frame>, delta: int): seq<Frame> {
    if frames == [] then []
    else
      var top := frames[|frames| - 1];
      frames[..|frames| - 1] + [top.(braces := top.braces + delta)]
  }

  /** The grammar of token streams, one token at a time; None when the token is out of place. */
  ghost function Step(n: Nest, k: Kind): Option<Nest> {
    match n.phase
    case Opened(m) =>
      if k == LInterp then Some(Nest(n.frames + [Frame(1, m)], Plain, false)) else None
    case Closed(m) =>
      if k == StringCont(m) then Some(Nest(n.frames, Opened(m), false))
      else if k == StringEnd(m) then Some(Nest(n.frames, Plain, true))
      else None
    case Plain =>
      match k
      case LInterp | StringCont(_) | StringEnd(_) => None
      case StringBeg(m) => Some(Nest(n.frames, Opened(m), false))
      case RInterp =>
        if n.frames != [] && n.frames[|n.frames| - 1].braces == 1 then
          Some(Nest(n.frames[..|n.frames| - 1], Closed(n.frames[|n.frames| - 1].multi), false))
        else None
      case LBrace => Some(Nest(Braced(n.frames, 1), Plain, false))
      case RBrace =>
        if n.frames != [] && n.frames[|n.frames| - 1].braces == 1 then None
        else Some(Nest(Braced(n.frames, -1), Plain, true))
      case Semi => if n.ends then Some(Nest(n.frames, Plain, false)) else None
      case EOF => if n.ends then None else Some(n)
      case _ => Some(Nest(n.frames, Plain, EndsStatement(k)))
  }

  lemma OrdinaryStep(n: Nest, k: Kind)
    requires n.phase.Plain? && IsOrdinary(k)
    ensures Step(n, k) == Some(Nest(n.frames, Plain, EndsStatement(k)))
    ensures !k.EOF? && !k.Semi?
  {
  }

  lemma BraceStep(n: Nest, k: Kind)
    requires n.phase.Plain? && (k == LBrace || k == RBrace)
    requires k == RBrace && n.frames != [] ==> n.frames[|n.frames| - 1].braces != 1
    ensures Step(n, k) == Some(Nest(Braced(n.frames, if k == LBrace then 1 else -1), Plain, k == RBrace))
  {
  }

  lemma PunctLexeme(src: string, tok: Token)
    requires tok.pos < tok.end <= |src|
    requires Punct(src[tok.pos], PeekAt(src, tok.pos)) == Some((tok.kind, tok.end - tok.pos))
    ensures Lexeme(src, tok) && TokenStart(tok) == tok.pos && !tok.kind.EOF? && !tok.kind.Semi?
    ensures tok.kind != LBrace && tok.kind != RBrace ==> IsOrdinary(tok.kind)
    ensures After(src, tok) == tok.end && !Resumes(tok.kind)
  {
    hide Punct, TextEnd;
  }

  lemma CloseLexeme(src: string, i: nat)
    requires i < |src| && src[i] == '}'
    ensures Lexeme(src, Token(RInterp, i, i + 1)) && !Resumes(RInterp)
    ensures After(src, Token(RInterp, i, i + 1)) == i + 1
  {
  }

  lemma CloseStep(n: Nest)
    requires n.phase.Plain? && n.frames != [] && n.frames[|n.frames| - 1].braces == 1
    ensures Step(n, RInterp) == Some(Nest(n.frames[..|n.frames| - 1], Closed(n.frames[|n.frames| - 1].multi), false))
  {
  }

  /** A marker that is due. */
  lemma MarkerStep(n: Nest, tok: Token, src: string)
    requires n.phase.Opened? && tok.kind.LInterp? && PairAt(src, tok.pos, '$', '{') && tok.end == tok.pos + 2
    ensures Step(n, tok.kind) == Some(Nest(n.frames + [Frame(1, n.phase.multi)], Plain, false))
    ensures Lexeme(src, tok) && Follows(src, tok.pos, tok) && After(src, tok) == tok.end
  {
  }

  /** A segment that goes on with a string. */
  lemma ResumeStep(n: Nest, more: bool)
    requires n.phase.Closed?
    ensures Step(n, SegmentKind(false, !more, n.phase.multi)) ==
      Some(Nest(n.frames, if more then Opened(n.phase.multi) else Plain, !more))
    ensures EndsStatement(SegmentKind(false, !more, n.phase.multi)) == !more
  {
  }

  lemma ResumeLexeme(src: string, tok: Token)
    requires tok.pos <= |src| && (tok.kind.StringCont? || tok.kind.StringEnd?)
    requires tok.end == TextEnd(src, tok.pos, tok.kind.multi)
    requires tok.kind.StringCont? <==> PairAt(src, tok.end, '$', '{')
    ensures Lexeme(src, tok) && Follows(src, tok.pos, tok)
  {
  }

  lemma SilentSteps(n: Nest)
    requires n.phase.Plain?
    ensures if n.ends then Step(n, Semi) == Some(Nest(n.frames, Plain, false)) else Step(n, EOF) == Some(n)
    ensures !EndsStatement(Semi) && !EndsStatement(EOF)
  {
  }

  lemma SilentLexemes(src: string, i: nat)
    requires i <= |src|
    ensures Lexeme(src, Token(Semi, i, i)) && Lexeme(src, Token(EOF, i, i))
    ensures forall k: nat :: k <= i ==> Lexeme(src, Token(Semi, k, i))
  {
  }

  /** A segment that ends at a marker does not end a statement. */
  lemma EndingSegments(first: bool, multi: bool)
    ensures !EndsStatement(SegmentKind(first, false, multi))
  {
  }

  lemma SemiFollows(src: string, from: nat, tok: Token)
    requires from <= tok.pos <= tok.end <= |src| && tok.kind.Semi? && BlankEnd(src, tok.end) == BlankEnd(src, from)
    ensures Follows(src, from, tok) && After(src, tok) == tok.end
  {
  }

  lemma EndFollows(src: string, from: nat, tok: Token)
    requires from <= |src| == BlankEnd(src, from) && tok.pos == tok.end == |src|
    requires tok.kind.Semi? || tok.kind.EOF?
    ensures Follows(src, from, tok) && After(src, tok) == tok.end
  {
  }

  lemma TokenFollows(src: string, from: nat, tok: Token)
    requires from <= |src| && tok.end <= |src| && TokenStart(tok) == BlankEnd(src, from)
    requires !tok.kind.Semi? && !Resumes(tok.kind)
    ensures Follows(src, from, tok)
  {
  }

  lemma NumberTokenErrors(src: string, tok: Token)
    requires tok.pos < tok.end <= |src| && IsDigit(src[tok.pos]) && (tok.kind.Int? || tok.kind.Illegal?)
    ensures TokenErrors(src, tok) == NumberErrors(tok)
  {
  }

  lemma StrayTokenErrors(src: string, i: nat)
    requires i < |src| && !IsDigit(src[i])
    ensures TokenErrors(src, Token(Illegal, i, i + 1)) == [Error(InvalidChar, i, i + 1)]
  {
  }

  /** A semicolon is due where a statement can end: at the end of the source, or at a newline among the blanks
      outside every interpolation. */
  ghost predicate SemiDue(src: string, from: nat, n: Nest)
    requires from <= |src|
  {
    n.ends && (BlankEnd(src, from) == |src| || (n.frames == [] && HasNewline(src, from, BlankEnd(src, from))))
  }

  lemma SemiIsDue(src: string, from: nat, stop: nat, n: Nest)
    requires from <= stop <= |src| && n.ends && n.frames == [] && HasNewline(src, from, stop)
    requires BlankEnd(src, stop) == BlankEnd(src, from)
    ensures SemiDue(src, from, n)
  {
    hide BlankEnd;
  }

  lemma SemiAtTheEnd(src: string, from: nat, n: Nest)
    requires from <= |src| == BlankEnd(src, from)
    ensures SemiDue(src, from, n) <==> n.ends
  {
  }

  lemma NoSemiIsDue(src: string, from: nat, n: Nest)
    requires from <= |src| && BlankEnd(src, from) < |src|
    requires n.ends && n.frames == [] ==> !HasNewline(src, from, BlankEnd(src, from))
    ensures !SemiDue(src, from, n)
  {
  }

  lemma NoGap(src: string, from: nat, tok: Token)
    requires from <= |src| && tok.pos <= tok.end <= |src| && Resumes(tok.kind)
    ensures CommentSpans(src, Gap(src, from, tok)) == [] && ErrorsTo(src, from, tok) == TokenErrors(src, tok)
  {
    hide TokenErrors;
  }

  /** A marker that is due has nothing before it and nothing wrong with it. */
  lemma NothingBetween(src: string, from: nat, tok: Token)
    requires from <= |src| && tok.pos <= tok.end <= |src| && tok.kind.LInterp?
    ensures CommentSpans(src, Gap(src, from, tok)) == [] && ErrorsTo(src, from, tok) == []
  {
  }

  lemma SilentErrors(src: string, from: nat, tok: Token)
    requires from <= |src| && tok.pos <= tok.end <= |src| && (tok.kind.Semi? || (tok.kind.EOF? && tok.pos == tok.end))
    ensures Gap(src, from, tok) == Blanks(src, from, tok.end)
    ensures ErrorsTo(src, from, tok) == CommentErrors(src, Gap(src, from, tok))
  {
    hide CommentErrors, Blanks;
  }

  lemma TokenGap(src: string, from: nat, start: nat, tok: Token)
    requires from <= |src| && tok.pos <= tok.end <= |src| && TokenStart(tok) == start
    requires !Resumes(tok.kind) && !tok.kind.Semi?
    ensures Gap(src, from, tok) == Blanks(src, from, start)
    ensures ErrorsTo(src, from, tok) == CommentErrors(src, Gap(src, from, tok)) + TokenErrors(src, tok)
  {
    hide TokenErrors, CommentErrors, Blanks;
  }

  lemma PlainTokenErrors(src: string, tok: Token)
    requires tok.pos <= tok.end <= |src| && !IsSegment(tok.kind) && !tok.kind.Illegal?
    ensures TokenErrors(src, tok) == []
  {
  }

  lemma EndingKinds()
    ensures !EndsStatement(RInterp) && !EndsStatement(LBrace) && EndsStatement(RBrace)
  {
  }

  lemma BracedKeepsPositive(frames: seq<Frame>, delta: int)
    requires forall f :: f in frames ==> f.braces >= 1
    requires frames != [] ==> frames[|frames| - 1].braces + delta >= 1
    ensures forall f :: f in Braced(frames, delta) ==> f.braces >= 1
  {
    assert forall f :: f in Braced(frames, delta) && f in frames[..|frames| - 1] ==> f in frames;
  }

  ghost predicate OrderedSpans(spans: seq<Span>, limit: nat) {
    && (forall i :: 0 <= i < |spans| ==> spans[i].start <= spans[i].end <= limit)
    && (forall i, j :: 0 <= i < j < |spans| ==> spans[i].end <= spans[j].start)
  }

  lemma SpansLater(spans: seq<Span>, limit: nat, later: nat)
    requires OrderedSpans(spans, limit) && limit <= later
    ensures OrderedSpans(spans, later)
  {
  }

  lemma SpansAppend(spans: seq<Span>, start: nat, end: nat)
    requires OrderedSpans(spans, start) && start <= end
    ensures OrderedSpans(spans + [Span(start, end)], end)
  {
  }

  class Lexer {
    const src: string
    var pos: nat
    var prev: Kind
    var comments: seq<Span>
    var interp: seq<Frame>
    var pending: Token
    var hasPending: bool
    var resumingString: bool
    var resumingMulti: bool
    var errs: seq<Error>

    ghost predicate Sane()
      reads this
    {
      && pos <= |src|
      && (forall f :: f in interp ==> f.braces >= 1)
      && OrderedSpans(comments, pos)
      && (forall e :: e in errs ==> e.start <= e.end <= |src|)
    }

    ghost predicate Quiet()
      reads this
    {
      !hasPending && !resumingString
    }

    ghost predicate Valid()
      reads this
    {
      && Sane()
      && (hasPending ==>
            && !resumingString && pos >= 2 && pending == Token(LInterp, pos - 2, pos)
            && PairAt(src, pos - 2, '$', '{') && !EndsStatement(prev)
            && interp != [] && interp[|interp| - 1].braces == 1)
      && (resumingString ==> prev == RInterp && pos >= 1)
    }

    ghost function Abs(): Nest
      reads this
    {
      if hasPending && interp != [] then
        Nest(interp[..|interp| - 1], Opened(interp[|interp| - 1].multi), EndsStatement(prev))
      else if resumingString then Nest(interp, Closed(resumingMulti), EndsStatement(prev))
      else Nest(interp, Plain, EndsStatement(prev))
    }

    /** No token that is still to come starts before this offset. */
    ghost function Floor(): nat
      reads this
    {
      if hasPending then pending.pos else pos
    }

    /** Calls of Next that can still give something other than EOF. */
    ghost function Budget(): int
      reads this
    {
      3 * (|src| - pos) + B(hasPending) + 2 * B(resumingString) + B(EndsStatement(prev))
    }

    constructor (src: string)
      ensures comments == [] && errs == []
      ensures Valid() && this.src == src && pos == 0 && Abs() == Nest([], Plain, false) && Budget() == 3 * |src|
    {
      this.src := src;
      pos, prev, comments, interp := 0, Illegal, [], [];
      pending, hasPending := Token(Illegal, 0, 0), false;
      resumingString, resumingMulti, errs := false, false, [];
    }

    method AddErr(k: ErrKind, start: nat, end: nat)
      requires start <= end <= |src|
      modifies this`errs
      ensures errs == old(errs) + [Error(k, start, end)]
    {
      errs := errs + [Error(k, start, end)];
    }

    method Emit(k: Kind, start: nat, end: nat) returns (tok: Token)
      modifies this`prev
      ensures prev == k && tok == Token(k, start, end)
    {
      prev := k;
      return Token(k, start, end);
    }

    // Blanks and comments
    // -------------------------------------------------------------------------

    /** A nested block comment. It counts as a newline when it holds one. */
    method SkipBlockComment() returns (tok: Option<Token>)
      requires Sane() && pos + 1 < |src|
      modifies this`pos, this`prev, this`comments, this`errs
      ensures Sane() && old(pos) + 2 <= pos == CommentEnd(src, old(pos) + 2, 1)
      ensures tok.None? ==> prev == old(prev)
      ensures tok.Some? ==> prev == Semi && tok == Some(Token(Semi, pos, pos))
      ensures tok.Some? <==> EndsStatement(old(prev)) && interp == [] && HasNewline(src, old(pos) + 2, pos)
      ensures comments == old(comments) + [Span(old(pos), pos)]
      ensures errs == old(errs) +
        (if CommentCloses(src, old(pos) + 2, 1) then [] else [Error(UnterminatedComment, old(pos), |src|)])
    {
      hide OrderedSpans, EndsStatement, HasNewline, CommentEnd, CommentCloses;
      var start := pos;
      pos := pos + 2;
      var depth, sawNewline := SkipCommentText();
      if depth > 0 {
        UnclosedRunsOut(src, start + 2, 1);
        AddErr(UnterminatedComment, start, pos);
      }
      SpansAppend(comments, start, pos);
      comments := comments + [Span(start, pos)];
      if sawNewline && EndsStatement(prev) && |interp| == 0 {
        var t := Emit(Semi, pos, pos);
        return Some(t);
      }
      return None;
    }

    /** Up to the closing that balances the opening already passed. */
    method SkipCommentText() returns (depth: nat, sawNewline: bool)
      requires pos <= |src|
      modifies this`pos
      ensures old(pos) <= pos == CommentEnd(src, old(pos), 1)
      ensures depth == 0 <==> CommentCloses(src, old(pos), 1)
      ensures sawNewline <==> HasNewline(src, old(pos), pos)
    {
      hide HasNewline;
      NoNewline(src, pos);
      depth, sawNewline := 1, false;
      while pos < |src| && depth > 0
        invariant old(pos) <= pos <= |src|
        invariant CommentEnd(src, pos, depth) == CommentEnd(src, old(pos), 1)
        invariant CommentCloses(src, pos, depth) <==> CommentCloses(src, old(pos), 1)
        invariant sawNewline <==> HasNewline(src, old(pos), pos)
        decreases |src| - pos
      {
        ghost var before := pos;
        var c := src[pos];
        if c == '/' && pos + 1 < |src| && src[pos + 1] == '*' {
          depth := depth + 1;
          pos := pos + 2;
        } else if c == '*' && pos + 1 < |src| && src[pos + 1] == '/' {
          depth := depth - 1;
          pos := pos + 2;
        } else {
          if c == '\n' {
            sawNewline := true;
          }
          pos := pos + 1;
        }
        NewlineAt(src, before);
        NewlineAt(src, pos - 1);
        NewlineSplit(src, before, before + 1, pos);
        NewlineSplit(src, old(pos), before, pos);
        NoNewline(src, pos);
      }
    }

    /** A line comment, up to but not including the newline. */
    method SkipLineComment()
      requires Sane() && pos + 1 < |src|
      modifies this`pos, this`comments
      ensures Sane() && pos >= old(pos) + 2
      ensures !HasNewline(src, old(pos) + 2, pos) && pos == LineEnd(src, old(pos) + 2)
      ensures comments == old(comments) + [Span(old(pos), pos)]
    {
      var start := pos;
      pos := pos + 2;
      while pos < |src| && src[pos] != '\n'
        modifies this`pos
        invariant start + 2 <= pos <= |src| && !HasNewline(src, start + 2, pos)
        invariant LineEnd(src, pos) == LineEnd(src, start + 2)
      {
        pos := pos + 1;
      }
      SpansAppend(comments, start, pos);
      comments := comments + [Span(start, pos)];
    }

    /** One white space byte or one comment. */
    method SkipBlank() returns (tok: Option<Token>)
      requires Sane() && pos < |src| && IsBlank(src, pos)
      modifies this`pos, this`prev, this`comments, this`errs
      ensures Sane() && old(pos) < pos == AfterBlank(src, old(pos))
      ensures comments == old(comments) + (if IsComment(src, old(pos)) then [Span(old(pos), pos)] else [])
      ensures errs == old(errs) +
        (if IsOpenComment(src, old(pos)) then [Error(UnterminatedComment, old(pos), |src|)] else [])
      ensures tok.None? ==> prev == old(prev)
      ensures tok.Some? ==>
        prev == Semi && tok.value.kind == Semi && old(pos) <= tok.value.pos <= tok.value.end == pos
      ensures tok.Some? <==> EndsStatement(old(prev)) && interp == [] && HasNewline(src, old(pos), pos)
    {
      hide OrderedSpans, EndsStatement, CommentEnd, LineEnd, HasNewline;
      ghost var start := pos;
      NewlineAt(src, pos);
      if src[pos] == '/' {
        NewlineAt(src, pos + 1);
        NewlineSplit(src, pos, pos + 1, pos + 2);
        if src[pos + 1] == '/' {
          SkipLineComment();
          tok := None;
        } else {
          tok := SkipBlockComment();
        }
        NewlineSplit(src, start, start + 2, pos);
        return;
      }
      SpansLater(comments, pos, pos + 1);
      if src[pos] == '\n' && EndsStatement(prev) && |interp| == 0 {
        var t := Emit(Semi, pos, pos + 1);
        tok := Some(t);
      } else {
        tok := None;
      }
      pos := pos + 1;
    }

    /** Skips blanks; a semicolon is due exactly when a newline was passed, in a comment or not, where a
        statement can end and no interpolation is open. */
    method SkipBlanks() returns (tok: Option<Token>)
      requires Sane()
      modifies this`pos, this`prev, this`comments, this`errs
      ensures Sane() && pos >= old(pos)
      ensures tok.None? ==> prev == old(prev)
      ensures tok.Some? ==>
        prev == Semi && tok.value.kind == Semi && old(pos) <= tok.value.pos <= tok.value.end == pos
      ensures tok.Some? <==> EndsStatement(old(prev)) && interp == [] && HasNewline(src, old(pos), pos)
      ensures if tok.None? then pos == BlankEnd(src, old(pos)) else BlankEnd(src, pos) == BlankEnd(src, old(pos))
      ensures comments == old(comments) + CommentSpans(src, Blanks(src, old(pos), pos))
      ensures errs == old(errs) + CommentErrors(src, Blanks(src, old(pos), pos))
    {
      hide OrderedSpans, EndsStatement, IsBlank, Blanks, AfterBlank, CommentErrors, CommentSpans, IsOpenComment;
      NoBlanks(src, pos);
      while pos < |src| && IsBlank(src, pos)
        invariant Sane() && old(pos) <= pos && prev == old(prev)
        invariant BlankPath(src, old(pos), pos)
        invariant comments == old(comments) + CommentSpans(src, Blanks(src, old(pos), pos))
        invariant errs == old(errs) + CommentErrors(src, Blanks(src, old(pos), pos))
        invariant EndsStatement(prev) && interp == [] ==> !HasNewline(src, old(pos), pos)
        decreases |src| - pos
      {
        ghost var start := pos;
        var t := SkipBlank();
        NewlineSplit(src, old(pos), start, pos);
        OneBlankMore(src, old(pos), start);
        CommentErrorsAppend(src, Blanks(src, old(pos), start), start);
        CommentSpansAppend(src, Blanks(src, old(pos), start), start);
        if t.Some? {
          PathEnd(src, old(pos), pos);
          return t;
        }
      }
      PathEnd(src, old(pos), pos);
      return None;
    }

    // Words and numbers
    // -------------------------------------------------------------------------

    method SkipIdentCont()
      requires pos <= |src|
      modifies this`pos
      ensures old(pos) <= pos <= |src|
      ensures forall i :: old(pos) <= i < pos ==> IsIdentCont(src[i])
      ensures pos < |src| ==> !IsIdentCont(src[pos])
    {
      while pos < |src| && IsIdentCont(src[pos])
        invariant old(pos) <= pos <= |src|
        invariant forall i :: old(pos) <= i < pos ==> IsIdentCont(src[i])
      {
        pos := pos + 1;
      }
    }

    /** The longest run of identifier characters; a keyword if it is one. */
    method ScanIdent() returns (tok: Token)
      requires Sane() && pos < |src| && IsIdentStart(src[pos])
      modifies this`pos, this`prev
      ensures Sane() && old(pos) < pos
      ensures tok == Token(prev, old(pos), pos) && (prev.Ident? || prev.Keyword?)
      ensures Lexeme(src, tok)
    {
      var start := pos;
      SkipIdentCont();
      tok := Emit(Lookup(src[start..pos]), start, pos);
    }

    ghost predicate InWord(start: nat)
      reads this
    {
      pos <= |src| && forall i :: start <= i < pos ==> IsIdentCont(src[i])
    }

    /** After the digits: an identifier character that follows spoils the number. */
    method FinishNumber(start: nat) returns (tok: Token)
      requires Sane() && start < pos && InWord(start) && IsDigit(src[start])
      requires IsNumber(src, start, pos) && SpoilsNumber(src, start, pos)
      modifies this`pos, this`prev, this`errs
      ensures Sane() && old(pos) <= pos && tok == Token(prev, start, pos)
      ensures IsWord(src, start, pos) && prev == if IsNumber(src, start, pos) then Int else Illegal
      ensures errs == old(errs) + NumberErrors(tok)
    {
      hide OrderedSpans, IsNumber;
      SpansLater(comments, pos, pos);
      if pos < |src| && IsIdentCont(src[pos]) {
        var stop := pos;
        SkipIdentCont();
        SpansLater(comments, stop, pos);
        AddErr(InvalidNumber, start, pos);
        tok := Emit(Illegal, start, pos);
      } else {
        tok := Emit(Int, start, pos);
      }
    }

    /** The digits after a radix prefix. */
    method ScanDigits(start: nat, digit: char -> bool) returns (tok: Token)
      requires Sane() && HasPrefix(src, start) && pos == start + 2
      requires forall c :: digit(c) <==> IsRadixDigit(src[start + 1], c)
      modifies this`pos, this`prev, this`errs
      ensures Sane() && old(pos) <= pos && tok == Token(prev, start, pos)
      ensures prev.Int? || prev.Illegal?
      ensures prev.Int? ==> IsWord(src, start, pos) && IsNumber(src, start, pos)
      ensures prev.Illegal? ==> IsBadNumber(src, start, pos)
      ensures errs == old(errs) + NumberErrors(tok)
    {
      hide OrderedSpans;
      while pos < |src| && digit(src[pos])
        modifies this`pos
        invariant start + 2 <= pos <= |src|
        invariant forall i :: start + 2 <= i < pos ==> IsRadixDigit(src[start + 1], src[i]) && IsIdentCont(src[i])
      {
        pos := pos + 1;
      }
      SpansLater(comments, start + 2, pos);
      if pos == start + 2 {
        AddErr(InvalidNumber, start, pos);
        tok := Emit(Illegal, start, pos);
        return;
      }
      RadixSpoils(src, start, pos);
      tok := FinishNumber(start);
    }

    method ScanDecimal() returns (tok: Token)
      requires Sane() && pos < |src| && IsDigit(src[pos]) && !HasPrefix(src, pos)
      modifies this`pos, this`prev, this`errs
      ensures Sane() && old(pos) < pos && tok == Token(prev, old(pos), pos)
      ensures IsWord(src, old(pos), pos) && prev == if IsNumber(src, old(pos), pos) then Int else Illegal
      ensures errs == old(errs) + NumberErrors(tok)
    {
      hide OrderedSpans;
      var start := pos;
      while pos < |src| && IsDigit(src[pos])
        modifies this`pos
        invariant start <= pos <= |src| && (pos == start ==> IsDigit(src[pos]))
        invariant forall i :: start <= i < pos ==> IsDigit(src[i])
      {
        pos := pos + 1;
      }
      SpansLater(comments, start, pos);
      DecimalSpoils(src, start, pos);
      tok := FinishNumber(start);
    }

    /** A decimal literal, or a hexadecimal, binary or octal one after its prefix: a number exactly when the
        whole word is one. A prefix without a digit is cut off after its two characters. */
    method ScanNumber() returns (tok: Token)
      requires Sane() && pos < |src| && IsDigit(src[pos])
      modifies this`pos, this`prev, this`errs
      ensures Sane() && old(pos) < pos && tok == Token(prev, old(pos), pos) && Lexeme(src, tok)
      ensures prev.Int? || prev.Illegal?
      ensures prev.Int? ==> IsWord(src, old(pos), pos) && IsNumber(src, old(pos), pos)
      ensures prev.Illegal? ==> IsBadNumber(src, old(pos), pos)
      ensures forall end :: IsWord(src, old(pos), end) ==> (prev.Int? <==> IsNumber(src, old(pos), end))
      ensures errs == old(errs) + NumberErrors(tok)
    {
      hide OrderedSpans, IsNumber, IsBadNumber, IsWord;
      var start := pos;
      tok := ScanRadixOrDecimal();
      NumberLexeme(src, tok);
      forall end | IsWord(src, start, end) ensures prev.Int? <==> IsNumber(src, start, end) {
        NumberIffWordIs(src, tok, end);
      }
    }

    method ScanRadixOrDecimal() returns (tok: Token)
      requires Sane() && pos < |src| && IsDigit(src[pos])
      modifies this`pos, this`prev, this`errs
      ensures Sane() && old(pos) < pos && tok == Token(prev, old(pos), pos)
      ensures prev.Int? || prev.Illegal?
      ensures prev.Int? ==> IsWord(src, old(pos), pos) && IsNumber(src, old(pos), pos)
      ensures prev.Illegal? ==> IsBadNumber(src, old(pos), pos)
      ensures errs == old(errs) + NumberErrors(tok)
    {
      hide OrderedSpans, IsNumber;
      var start := pos;
      if src[pos] == '0' && pos + 1 < |src| {
        var x := src[pos + 1];
        SpansLater(comments, pos, pos + 2);
        if x == 'x' || x == 'X' {
          pos := pos + 2;
          tok := ScanDigits(start, IsHexDigit);
          return;
        }
        if x == 'b' || x == 'B' {
          pos := pos + 2;
          tok := ScanDigits(start, IsBinDigit);
          return;
        }
        if x == 'o' || x == 'O' {
          pos := pos + 2;
          tok := ScanDigits(start, IsOctDigit);
          return;
        }
      }
      tok := ScanDecimal();
    }

    // Punctuation and strings
    // -------------------------------------------------------------------------

    method ScanPunct() returns (tok: Option<Token>)
      requires Valid() && Quiet() && pos < |src|
      modifies this
      ensures Valid()
      ensures tok.None? ==>
        pos == old(pos) && interp == old(interp) && prev == old(prev) && Quiet() && Abs() == old(Abs())
      ensures tok.Some? ==> Lexeme(src, tok.value) && TokenStart(tok.value) == old(pos)
      ensures tok.None? ==> Punct(src[pos], PeekAt(src, pos)) == None
      ensures comments == old(comments) && errs == old(errs)
      ensures tok.Some? ==> tok.value.kind.RInterp? || IsPunct(tok.value.kind)
      ensures tok.Some? ==> Floor() == After(src, tok.value) && !Resumes(tok.value.kind)
      ensures tok.Some? ==>
        && old(pos) == tok.value.pos < tok.value.end == pos && !hasPending
        && !tok.value.kind.EOF? && !tok.value.kind.Semi? && Step(old(Abs()), tok.value.kind) == Some(Abs())
        && (resumingString ==> !EndsStatement(prev))
    {
      hide Punct, Step, OrderedSpans, EndsStatement, Braced, IsOrdinary, Lexeme, IsPunct, After, Resumes, PairAt;
      var start, c := pos, src[pos];
      var peek := PeekAt(src, pos);
      var closed := TrackBrace(c);
      EndingKinds();
      if closed {
        CloseStep(old(Abs()));
        CloseLexeme(src, pos);
        SpansLater(comments, pos, pos + 1);
        pos := pos + 1;
        resumingString := true;
        var t := Emit(RInterp, start, pos);
        return Some(t);
      }
      match Punct(c, peek)
      case None =>
        return None;
      case Some((k, n)) =>
        PunctLexeme(src, Token(k, start, start + n));
        if c == '{' || c == '}' {
          BraceStep(old(Abs()), k);
        } else {
          OrdinaryStep(old(Abs()), k);
        }
        SpansLater(comments, pos, pos + n);
        pos := pos + n;
        var t := Emit(k, start, pos);
        return Some(t);
    }

    /** Inside an interpolation braces are counted; the one that balances the marker closes it. */
    method TrackBrace(c: char) returns (closed: bool)
      requires Sane()
      modifies this`interp, this`resumingMulti
      ensures Sane()
      ensures closed <==> c == '}' && old(interp) != [] && old(interp)[|old(interp)| - 1].braces == 1
      ensures closed ==>
        interp == old(interp)[..|old(interp)| - 1] && resumingMulti == old(interp)[|old(interp)| - 1].multi
      ensures !closed ==>
        interp == if c == '{' then Braced(old(interp), 1) else if c == '}' then Braced(old(interp), -1) else old(interp)
    {
      hide OrderedSpans;
      if |interp| > 0 {
        var top := interp[|interp| - 1];
        assert top in interp;
        if c == '{' {
          BracedKeepsPositive(interp, 1);
          interp := Braced(interp, 1);
        } else if c == '}' {
          if top.braces == 1 {
            interp := interp[..|interp| - 1];
            resumingMulti := top.multi;
            return true;
          }
          BracedKeepsPositive(interp, -1);
          interp := Braced(interp, -1);
        }
      }
      return false;
    }

    method EnterString() returns (tok: Token)
      requires Valid() && Quiet() && pos < |src|
      modifies this
      ensures Valid() && !resumingString && old(pos) < tok.pos <= tok.end <= Floor() && tok.pos <= pos
      ensures hasPending ==> pos >= old(pos) + 3
      ensures !tok.kind.EOF? && !tok.kind.Semi? && Step(old(Abs()), tok.kind) == Some(Abs())
      ensures IsQuote(src[old(pos)]) ==> Lexeme(src, tok) && TokenStart(tok) == old(pos)
      ensures Floor() == After(src, tok) && !Resumes(tok.kind)
      ensures comments == old(comments) && errs == old(errs) + TokenErrors(src, tok)
    {
      hide OrderedSpans, TokenErrors, TextEnd;
      var multi := src[pos] == '`';
      SpansLater(comments, pos, pos + 1);
      pos := pos + 1;
      tok := ScanStringSegment(true, multi);
    }

    /** Passes the text of a segment. */
    method SkipText(multi: bool)
      requires Sane()
      modifies this`pos, this`errs
      ensures Sane() && old(pos) <= pos == TextEnd(src, old(pos), multi)
      ensures pos == |src| || StopsAt(src, pos, multi)
      ensures errs == old(errs) + EscapeErrors(src, Escapes(src, old(pos), multi), multi)
    {
      hide OrderedSpans, StopsAt, EscapeErrors, IsBadEscape, Escapes, TextEnd, EscapeError;
      ghost var seen: seq<nat> := [];
      NoEscapes(src, multi);
      while pos < |src| && !StopsAt(src, pos, multi)
        invariant Sane() && old(pos) <= pos
        invariant TextEnd(src, pos, multi) == TextEnd(src, old(pos), multi)
        invariant seen + Escapes(src, pos, multi) == Escapes(src, old(pos), multi)
        invariant errs == old(errs) + EscapeErrors(src, seen, multi)
        decreases |src| - pos
      {
        TextGoesOn(src, pos, multi);
        EscapeErrorsAppend(src, seen, pos, multi);
        if src[pos] == '\\' {
          seen := seen + [pos];
          SkipEscape(multi);
        } else {
          SpansLater(comments, pos, pos + 1);
          pos := pos + 1;
        }
      }
      TextStops(src, pos, multi);
      assert seen + [] == seen;
    }

    /** A backslash, and the byte it hides if there is one. */
    method SkipEscape(multi: bool)
      requires Sane() && pos < |src| && src[pos] == '\\'
      modifies this`pos, this`errs
      ensures Sane() && pos == if old(pos) + 1 < |src| then old(pos) + 2 else old(pos) + 1
      ensures errs == old(errs) +
        (if IsBadEscape(src, old(pos), multi) then [EscapeError(src, old(pos))] else [])
    {
      hide OrderedSpans, IsBadEscape, IsValidEscape;
      BadEscapes(src, pos, multi);
      SpansLater(comments, pos, if pos + 1 < |src| then pos + 2 else pos + 1);
      if pos + 1 >= |src| {
        AddErr(InvalidEscape, pos, pos + 1);
        pos := pos + 1;
      } else {
        if !multi && !IsValidEscape(src[pos + 1]) {
          AddErr(InvalidEscape, pos, pos + 2);
        }
        pos := pos + 2;
      }
    }

    /** One segment. The span covers the text alone, without delimiter or marker. */
    method ScanStringSegment(first: bool, multi: bool) returns (tok: Token)
      requires Sane() && Quiet() && pos >= 1
      modifies this
      ensures Valid() && !resumingString
      ensures old(pos) == tok.pos <= tok.end <= Floor() && old(pos) <= pos
      ensures prev == tok.kind == SegmentKind(first, !hasPending, multi)
      ensures tok.end == TextEnd(src, old(pos), multi) && (hasPending <==> PairAt(src, tok.end, '$', '{'))
      ensures hasPending ==> pos >= old(pos) + 2
      ensures Floor() == After(src, tok)
      ensures comments == old(comments) && errs == old(errs) + TokenErrors(src, tok)
      ensures interp == if hasPending then old(interp) + [Frame(1, multi)] else old(interp)
    {
      hide OrderedSpans, Escapes, EscapeErrors, TextEnd, EndsStatement;
      var start := pos;
      EndingSegments(first, multi);
      SkipText(multi);
      var end := pos;
      if pos < |src| && src[pos] == '$' {
        pos := pos + 2;
        interp := interp + [Frame(1, multi)];
        pending, hasPending := Token(LInterp, end, pos), true;
      } else if pos < |src| && src[pos] == (if multi then '`' else '\"') {
        pos := pos + 1;
      } else {
        AddErr(UnterminatedString, start - 1, pos);
      }
      SpansLater(comments, end, pos);
      tok := Emit(SegmentKind(first, !hasPending, multi), start, end);
    }

    // The next token
    // -------------------------------------------------------------------------

    ghost predicate AtEnd()
      reads this
    {
      pos == |src| && Quiet() && prev == EOF
    }

    method Next() returns (tok: Token)
      requires Valid()
      modifies this
      ensures Valid()
      ensures old(Floor()) <= tok.pos <= tok.end <= Floor() <= |src|
      ensures Lexeme(src, tok)
      ensures Follows(src, old(Floor()), tok) && Floor() == After(src, tok)
      ensures comments == old(comments) + CommentSpans(src, Gap(src, old(Floor()), tok))
      ensures errs == old(errs) + ErrorsTo(src, old(Floor()), tok)
      ensures old(Abs()).phase.Plain? ==> (tok.kind.Semi? <==> SemiDue(src, old(Floor()), old(Abs())))
      ensures Step(old(Abs()), tok.kind) == Some(Abs())
      ensures tok.kind.EOF? ==> AtEnd()
      ensures old(AtEnd()) ==> tok.kind.EOF?
      ensures !tok.kind.EOF? ==> 0 <= Budget() < old(Budget())
      ensures tok.kind.Semi? ==> interp == [] || tok.pos == |src|
    {
      hide OrderedSpans, Step, Lexeme, EndsStatement, Follows, After, Resumes, Gap, ErrorsTo, TokenErrors,
           CommentSpans, SemiDue, PairAt;
      if hasPending {
        tok := TakeMarker();
      } else if resumingString {
        tok := ResumeString();
        NoGap(src, old(Floor()), tok);
      } else {
        tok := NextFresh();
      }
    }

    /** The marker of the interpolation that was just opened. */
    method TakeMarker() returns (tok: Token)
      requires Valid() && hasPending
      modifies this`hasPending
      ensures Valid() && Quiet() && tok == pending && tok.kind.LInterp?
      ensures old(Floor()) == tok.pos <= tok.end == pos
      ensures Lexeme(src, tok) && Follows(src, old(Floor()), tok) && Floor() == After(src, tok)
      ensures CommentSpans(src, Gap(src, old(Floor()), tok)) == [] && ErrorsTo(src, old(Floor()), tok) == []
      ensures !old(Abs()).phase.Plain? && Step(old(Abs()), tok.kind) == Some(Abs())
    {
      hide OrderedSpans, Step, Lexeme, EndsStatement, Follows, After, Gap, ErrorsTo, CommentSpans;
      EndingKinds();
      MarkerStep(Abs(), pending, src);
      assert interp == interp[..|interp| - 1] + [interp[|interp| - 1]];
      hasPending := false;
      NothingBetween(src, old(Floor()), pending);
      return pending;
    }

    /** Outside strings: blanks, and then a token or the end of the source. */
    method NextFresh() returns (tok: Token)
      requires Valid() && Quiet()
      modifies this
      ensures Valid()
      ensures old(pos) <= tok.pos <= tok.end <= Floor() <= |src|
      ensures Lexeme(src, tok)
      ensures Follows(src, old(pos), tok) && Floor() == After(src, tok)
      ensures comments == old(comments) + CommentSpans(src, Gap(src, old(pos), tok))
      ensures errs == old(errs) + ErrorsTo(src, old(pos), tok)
      ensures tok.kind.Semi? <==> SemiDue(src, old(pos), old(Abs()))
      ensures Step(old(Abs()), tok.kind) == Some(Abs())
      ensures tok.kind.EOF? ==> AtEnd()
      ensures old(AtEnd()) ==> tok.kind.EOF?
      ensures !tok.kind.EOF? ==> 0 <= Budget() < old(Budget())
      ensures tok.kind.Semi? ==> interp == [] || tok.pos == |src|
    {
      hide OrderedSpans, Step, Lexeme, EndsStatement, BlankEnd, HasNewline, Follows, After, Resumes, PairAt,
           Gap, ErrorsTo, TokenErrors, CommentErrors, CommentSpans, SemiDue, Blanks;
      EndingKinds();
      var semi := SkipBlanks();
      SilentSteps(old(Abs()));
      SilentLexemes(src, pos);
      if semi.Some? {
        SemiFollows(src, old(pos), semi.value);
        SemiIsDue(src, old(pos), pos, old(Abs()));
        SilentErrors(src, old(pos), semi.value);
        return semi.value;
      }
      if pos >= |src| {
        tok := Emit(if EndsStatement(prev) then Semi else EOF, pos, pos);
        EndFollows(src, old(pos), tok);
        SemiAtTheEnd(src, old(pos), old(Abs()));
        SilentErrors(src, old(pos), tok);
        return;
      }
      NoSemiIsDue(src, old(pos), old(Abs()));
      ghost var start := pos;
      tok := ScanToken();
      TokenFollows(src, old(pos), tok);
      TokenGap(src, old(pos), start, tok);
    }

    /** The segment after an interpolation. */
    method ResumeString() returns (tok: Token)
      requires Valid() && resumingString
      modifies this
      ensures Valid() && !tok.kind.Semi? && !tok.kind.EOF?
      ensures old(pos) == tok.pos <= tok.end <= Floor() <= |src|
      ensures Lexeme(src, tok) && Follows(src, old(pos), tok) && Floor() == After(src, tok) && Resumes(tok.kind)
      ensures comments == old(comments) && errs == old(errs) + TokenErrors(src, tok)
      ensures Step(old(Abs()), tok.kind) == Some(Abs())
      ensures 0 <= Budget() < old(Budget())
    {
      hide OrderedSpans, Step, Lexeme, EndsStatement, TextEnd, BlankEnd, Follows, After, TokenErrors;
      resumingString := false;
      var multi := resumingMulti;
      resumingMulti := false;
      tok := ScanStringSegment(false, multi);
      ResumeStep(old(Abs()), hasPending);
      ResumeLexeme(src, tok);
    }

    /** A token that starts at the current byte. */
    method ScanToken() returns (tok: Token)
      requires Valid() && Quiet() && pos < |src|
      modifies this
      ensures Valid()
      ensures old(pos) <= tok.pos <= tok.end <= Floor() <= |src|
      ensures Lexeme(src, tok) && TokenStart(tok) == old(pos)
      ensures Floor() == After(src, tok) && !Resumes(tok.kind)
      ensures comments == old(comments) && errs == old(errs) + TokenErrors(src, tok)
      ensures Step(old(Abs()), tok.kind) == Some(Abs())
      ensures !tok.kind.EOF? && !tok.kind.Semi?
      ensures 0 <= Budget() < old(Budget())
    {
      hide OrderedSpans, Step, Lexeme, Punct, TextEnd, IsNumber, IsBadNumber, IsWord, TokenErrors, PairAt;
      var c := src[pos];
      if IsIdentStart(c) {
        tok := ScanIdent();
        OrdinaryStep(old(Abs()), tok.kind);
        PlainTokenErrors(src, tok);
        return;
      }
      if IsDigit(c) {
        tok := ScanNumber();
        OrdinaryStep(old(Abs()), tok.kind);
        NumberTokenErrors(src, tok);
        return;
      }
      if c == '\"' || c == '`' {
        tok := EnterString();
        return;
      }
      tok := ScanSymbol();
    }

    /** Punctuation, or a character that starts no token. */
    method ScanSymbol() returns (tok: Token)
      requires Valid() && Quiet() && pos < |src|
      requires !IsIdentStart(src[pos]) && !IsDigit(src[pos]) && !IsQuote(src[pos])
      modifies this
      ensures Valid()
      ensures old(pos) <= tok.pos <= tok.end <= Floor() <= |src|
      ensures Lexeme(src, tok) && TokenStart(tok) == old(pos)
      ensures Floor() == After(src, tok) && !Resumes(tok.kind)
      ensures comments == old(comments) && errs == old(errs) + TokenErrors(src, tok)
      ensures Step(old(Abs()), tok.kind) == Some(Abs())
      ensures !tok.kind.EOF? && !tok.kind.Semi?
      ensures 0 <= Budget() < old(Budget())
    {
      hide OrderedSpans, Step, Lexeme, Punct, TokenErrors, PairAt;
      var start := pos;
      var punct := ScanPunct();
      if punct.Some? {
        PlainTokenErrors(src, punct.value);
        return punct.value;
      }
      SpansLater(comments, pos, pos + 1);
      pos := pos + 1;
      AddErr(InvalidChar, start, pos);
      tok := Emit(Illegal, start, pos);
      OrdinaryStep(old(Abs()), Illegal);
      StrayLexeme(src, start);
      StrayTokenErrors(src, start);
    }
  }

  // Whole streams
  // ---------------------------------------------------------------------------

  /** The state of a reader after a stream that starts a file; None if some token was out of place. */
  ghost function Replay(tokens: seq<Token>): Option<Nest> {
    if tokens == [] then Some(Nest([], Plain, false))
    else
      match Replay(tokens[..|tokens| - 1])
      case None => None
      case Some(n) => Step(n, tokens[|tokens| - 1].kind)
  }

  ghost predicate OrderedTokens(tokens: seq<Token>, limit: nat) {
    && (forall i :: 0 <= i < |tokens| ==> tokens[i].pos <= tokens[i].end <= limit)
    && (forall i, j :: 0 <= i < j < |tokens| ==> tokens[i].end <= tokens[j].pos)
  }

  /** Token i follows the one before it, the first one the start of the source. */
  ghost predicate FollowsAt(src: string, tokens: seq<Token>, i: nat) {
    i < |tokens| && tokens[i].end <= |src|
    && (if i == 0 then Follows(src, 0, tokens[0])
        else tokens[i - 1].end <= |src| && Follows(src, After(src, tokens[i - 1]), tokens[i]))
  }

  /** Where the text of the token before token i stops. */
  ghost function Before(src: string, tokens: seq<Token>, i: nat): nat
    requires i < |tokens| && (i > 0 ==> tokens[i - 1].end <= |src|)
  {
    if i == 0 then 0 else After(src, tokens[i - 1])
  }

  /** The comments between the tokens. */
  ghost function StreamComments(src: string, tokens: seq<Token>): seq<Span>
    requires forall t :: t in tokens ==> t.pos <= t.end <= |src|
  {
    if tokens == [] then []
    else
      var k := |tokens| - 1;
      StreamComments(src, tokens[..k]) + CommentSpans(src, Gap(src, Before(src, tokens, k), tokens[k]))
  }

  /** Everything wrong between the tokens and with them, in order. */
  ghost function StreamErrors(src: string, tokens: seq<Token>): seq<Error>
    requires forall t :: t in tokens ==> t.pos <= t.end <= |src|
  {
    if tokens == [] then []
    else
      var k := |tokens| - 1;
      StreamErrors(src, tokens[..k]) + ErrorsTo(src, Before(src, tokens, k), tokens[k])
  }

  /** Is a semicolon at token i exactly if one is due there? */
  ghost predicate SemiRight(src: string, tokens: seq<Token>, i: nat)
    requires i < |tokens| && forall t :: t in tokens ==> t.end <= |src|
  {
    match Replay(tokens[..i])
    case Some(n) => n.phase.Plain? ==> (tokens[i].kind.Semi? <==> SemiDue(src, Before(src, tokens, i), n))
    case None => true
  }

  ghost predicate SemisRight(src: string, tokens: seq<Token>)
    requires forall t :: t in tokens ==> t.end <= |src|
  {
    forall i: nat :: i < |tokens| ==> SemiRight(src, tokens, i)
  }

  lemma {:induction false} StreamAppend(src: string, tokens: seq<Token>, n: Nest, tok: Token)
    requires forall t :: t in tokens ==> t.pos <= t.end <= |src|
    requires tok.pos <= tok.end <= |src| && Replay(tokens) == Some(n) && SemisRight(src, tokens)
    requires var from := Before(src, tokens + [tok], |tokens|);
      n.phase.Plain? ==> (tok.kind.Semi? <==> SemiDue(src, from, n))
    ensures forall t :: t in tokens + [tok] ==> t.pos <= t.end <= |src|
    ensures var from := Before(src, tokens + [tok], |tokens|);
      && StreamComments(src, tokens + [tok]) == StreamComments(src, tokens) + CommentSpans(src, Gap(src, from, tok))
      && StreamErrors(src, tokens + [tok]) == StreamErrors(src, tokens) + ErrorsTo(src, from, tok)
    ensures SemisRight(src, tokens + [tok])
  {
    hide CommentSpans, Gap, ErrorsTo, SemiDue, Replay, After;
    var longer := tokens + [tok];
    assert longer[..|tokens|] == tokens;
    forall i: nat | i < |longer| ensures SemiRight(src, longer, i) {
      if i < |tokens| {
        assert longer[..i] == tokens[..i];
        assert SemiRight(src, tokens, i);
      }
    }
  }

  // What is reported, said of the tokens and the source alone
  // ---------------------------------------------------------------------------

  /** An error between `from` and the token, or with the token: a comment that never closes, a bad escape, a
      string that is not closed, and every illegal token. */
  ghost predicate IsWrong(src: string, from: nat, tok: Token, e: Error)
    requires from <= |src| && tok.pos <= tok.end <= |src|
  {
    match e.kind
    case UnterminatedComment =>
      e.start in Gap(src, from, tok) && IsOpenComment(src, e.start) && e.end == |src|
    case InvalidEscape =>
      && IsSegment(tok.kind) && tok.pos <= e.start < tok.end && IsEscape(src, tok.pos, e.start)
      && IsBadEscape(src, e.start, tok.kind.multi) && e == EscapeError(src, e.start)
    case UnterminatedString =>
      && (tok.kind.String? || tok.kind.StringEnd?) && !IsClosed(src, tok)
      && e.start == (if tok.pos > 0 then tok.pos - 1 else 0) && e.end == tok.end
    case InvalidNumber =>
      tok.kind.Illegal? && tok.pos < tok.end && IsDigit(src[tok.pos]) && e.start == tok.pos && e.end == tok.end
    case InvalidChar =>
      tok.kind.Illegal? && tok.pos < tok.end && !IsDigit(src[tok.pos]) && e.start == tok.pos && e.end == tok.end
  }

  ghost predicate IsWrongAt(src: string, tokens: seq<Token>, k: nat, e: Error)
    requires k < |tokens| && forall t :: t in tokens ==> t.pos <= t.end <= |src|
  {
    IsWrong(src, Before(src, tokens, k), tokens[k], e)
  }

  lemma {:induction false} SegmentErrorsAre(src: string, tok: Token, e: Error)
    requires tok.pos <= tok.end <= |src| && Lexeme(src, tok) && IsSegment(tok.kind)
    ensures e in TokenErrors(src, tok) <==> !e.kind.UnterminatedComment? && IsWrong(src, 0, tok, e)
  {
    hide IsBadEscape, IsEscape, Escapes, IsClosed, Punct;
    SegmentText(src, tok);
    hide Lexeme;
    EscapesAreUnhidden(src, tok.pos, tok.pos, tok.kind.multi);
    EscapeErrorsAre(src, Escapes(src, tok.pos, tok.kind.multi), tok.kind.multi, e);
    if e.kind.InvalidEscape? && IsWrong(src, 0, tok, e) {
      assert e.start in Escapes(src, tok.pos, tok.kind.multi);
    }
  }

  lemma {:induction false} OtherErrorsAre(src: string, tok: Token, e: Error)
    requires tok.pos <= tok.end <= |src| && !IsSegment(tok.kind)
    ensures e in TokenErrors(src, tok) <==> !e.kind.UnterminatedComment? && IsWrong(src, 0, tok, e)
  {
    hide IsBadEscape, IsEscape, Escapes, IsClosed;
  }

  lemma {:induction false} TokenErrorsAre(src: string, from: nat, tok: Token, e: Error)
    requires from <= |src| && tok.pos <= tok.end <= |src| && Lexeme(src, tok)
    ensures e in ErrorsTo(src, from, tok) <==> IsWrong(src, from, tok, e)
  {
    hide Lexeme, IsOpenComment, IsBadEscape, IsEscape, Gap, TokenErrors, IsClosed;
    CommentErrorsAre(src, Gap(src, from, tok), e);
    if IsSegment(tok.kind) {
      SegmentErrorsAre(src, tok, e);
    } else {
      OtherErrorsAre(src, tok, e);
    }
  }

  lemma SegmentText(src: string, tok: Token)
    requires Lexeme(src, tok) && IsSegment(tok.kind)
    ensures tok.pos <= |src| && tok.end == TextEnd(src, tok.pos, tok.kind.multi)
  {
    hide Punct, TextEnd;
  }

  /** An error is recorded exactly when something is wrong at some token. */
  lemma {:induction false} ErrorsAreWhatIsWrong(src: string, tokens: seq<Token>, e: Error)
    requires forall t :: t in tokens ==> t.pos <= t.end <= |src| && Lexeme(src, t)
    ensures e in StreamErrors(src, tokens) <==>
      exists k: nat :: k < |tokens| && IsWrongAt(src, tokens, k, e)
    decreases |tokens|
  {
    hide Lexeme, IsWrong, ErrorsTo;
    if tokens != [] {
      var n := |tokens| - 1;
      var init := tokens[..n];
      ErrorsAreWhatIsWrong(src, init, e);
      TokenErrorsAre(src, Before(src, tokens, n), tokens[n], e);
      forall k: nat | k < n ensures IsWrongAt(src, tokens, k, e) <==> IsWrongAt(src, init, k, e) {
        assert Before(src, tokens, k) == Before(src, init, k);
      }
      if k: nat :| k < |init| && IsWrongAt(src, init, k, e) {
        assert IsWrongAt(src, tokens, k, e);
      }
      assert IsWrongAt(src, tokens, n, e) <==> e in ErrorsTo(src, Before(src, tokens, n), tokens[n]);
    }
  }

  ghost predicate Consecutive(src: string, tokens: seq<Token>) {
    forall i: nat :: i < |tokens| ==> FollowsAt(src, tokens, i)
  }

  /** What has been read up to `floor`, and the reader that has read it. */
  ghost predicate ReadTo(src: string, tokens: seq<Token>, n: Nest, floor: nat) {
    && OrderedTokens(tokens, floor) && floor <= |src|
    && Replay(tokens) == Some(n)
    && (forall t :: t in tokens ==> Lexeme(src, t))
    && Consecutive(src, tokens)
    && (if tokens == [] then floor == 0
        else tokens[|tokens| - 1].end <= |src| && floor == After(src, tokens[|tokens| - 1]))
  }

  lemma ReadNext(src: string, tokens: seq<Token>, n: Nest, floor: nat, tok: Token, m: Nest)
    requires ReadTo(src, tokens, n, floor)
    requires floor <= tok.pos <= tok.end <= |src| && Lexeme(src, tok) && Follows(src, floor, tok)
    requires Step(n, tok.kind) == Some(m)
    ensures ReadTo(src, tokens + [tok], m, After(src, tok))
  {
    hide Follows, Lexeme, After, OrderedTokens, Consecutive, Replay, Step;
    OrderedAppend(tokens, floor, tok);
    ReplayAppend(tokens, n, tok);
    ConsecutiveAppend(src, tokens, tok);
    OrderedLater(tokens + [tok], tok.end, After(src, tok));
  }

  lemma OrderedAppend(tokens: seq<Token>, floor: nat, tok: Token)
    requires OrderedTokens(tokens, floor) && floor <= tok.pos <= tok.end
    ensures OrderedTokens(tokens + [tok], tok.end)
  {
  }

  lemma OrderedLater(tokens: seq<Token>, floor: nat, later: nat)
    requires OrderedTokens(tokens, floor) && floor <= later
    ensures OrderedTokens(tokens, later)
  {
  }

  lemma ReplayAppend(tokens: seq<Token>, n: Nest, tok: Token)
    requires Replay(tokens) == Some(n)
    ensures Replay(tokens + [tok]) == Step(n, tok.kind)
  {
    hide Step;
    assert (tokens + [tok])[..|tokens|] == tokens;
  }

  lemma ConsecutiveAppend(src: string, tokens: seq<Token>, tok: Token)
    requires Consecutive(src, tokens) && FollowsAt(src, tokens + [tok], |tokens|)
    ensures Consecutive(src, tokens + [tok])
  {
    hide Follows, After;
    forall i: nat | i < |tokens| ensures FollowsAt(src, tokens + [tok], i) {
      assert FollowsAt(src, tokens, i);
    }
  }

  lemma ReadWhole(src: string, tokens: seq<Token>, n: Nest)
    requires ReadTo(src, tokens, n, |src|) && tokens != [] && tokens[|tokens| - 1].kind.EOF?
    ensures OrderedTokens(tokens, |src|) && Replay(tokens).Some? && forall t :: t in tokens ==> Lexeme(src, t)
    ensures Consecutive(src, tokens) && tokens[|tokens| - 1].end == |src|
  {
    hide Lexeme, Replay;
  }

  /** The comments and errors recorded so far, and that the semicolons are where they are due. */
  ghost predicate Recorded(src: string, tokens: seq<Token>, comments: seq<Span>, errs: seq<Error>) {
    && (forall t :: t in tokens ==> t.pos <= t.end <= |src|)
    && comments == StreamComments(src, tokens) && errs == StreamErrors(src, tokens)
    && SemisRight(src, tokens)
  }

  lemma NothingRecorded(src: string)
    ensures Recorded(src, [], [], [])
  {
  }

  lemma RecordNext(src: string, tokens: seq<Token>, n: Nest, floor: nat, tok: Token, comments: seq<Span>,
                   errs: seq<Error>)
    requires Recorded(src, tokens, comments, errs) && ReadTo(src, tokens, n, floor)
    requires tok.pos <= tok.end <= |src|
    requires n.phase.Plain? ==> (tok.kind.Semi? <==> SemiDue(src, floor, n))
    ensures Recorded(src, tokens + [tok], comments + CommentSpans(src, Gap(src, floor, tok)),
                     errs + ErrorsTo(src, floor, tok))
  {
    hide CommentSpans, Gap, ErrorsTo, SemiDue, Replay, After, SemisRight, StreamComments, StreamErrors,
         OrderedTokens, Lexeme, Consecutive;
    assert floor == Before(src, tokens + [tok], |tokens|);
    StreamAppend(src, tokens, n, tok);
  }

  lemma RecordedIsWrong(src: string, tokens: seq<Token>, comments: seq<Span>, errs: seq<Error>)
    requires Recorded(src, tokens, comments, errs) && forall t :: t in tokens ==> Lexeme(src, t)
    ensures forall t :: t in tokens ==> t.pos <= t.end <= |src|
    ensures forall e :: e in errs <==> exists k: nat :: k < |tokens| && IsWrongAt(src, tokens, k, e)
  {
    hide Lexeme, StreamComments, StreamErrors, SemisRight;
    forall e ensures e in errs <==> exists k: nat :: k < |tokens| && IsWrongAt(src, tokens, k, e) {
      ErrorsAreWhatIsWrong(src, tokens, e);
    }
  }

  /** Calling Next until EOF. It takes at most three calls a byte, the tokens do not overlap, only blanks lie
      between them, the stream is well nested, and a semicolon stands exactly where one is due. Recorded are the
      comments between the tokens and, in order, everything that is wrong. */
  method AllTokens(src: string) returns (tokens: seq<Token>, comments: seq<Span>, errs: seq<Error>)
    ensures 0 < |tokens| <= 3 * |src| + 1
    ensures forall i :: 0 <= i < |tokens| ==> (tokens[i].kind.EOF? <==> i == |tokens| - 1)
    ensures OrderedTokens(tokens, |src|)
    ensures Replay(tokens).Some?
    ensures forall t :: t in tokens ==> Lexeme(src, t) && t.pos <= t.end <= |src|
    ensures Consecutive(src, tokens) && tokens[|tokens| - 1].end == |src|
    ensures SemisRight(src, tokens)
    ensures comments == StreamComments(src, tokens)
    ensures errs == StreamErrors(src, tokens)
    ensures forall e :: e in errs <==> exists k: nat :: k < |tokens| && IsWrongAt(src, tokens, k, e)
  {
    var lexer := new Lexer(src);
    tokens := [];
    NothingRecorded(src);
    var done := false;
    while !done
      invariant lexer.Valid() && lexer.src == src
      invariant ReadTo(src, tokens, lexer.Abs(), lexer.Floor())
      invariant Recorded(src, tokens, lexer.comments, lexer.errs)
      invariant 0 <= lexer.Budget()
      invariant !done ==> |tokens| + lexer.Budget() <= 3 * |src|
      invariant done ==> 0 < |tokens| <= 3 * |src| + 1 && lexer.Floor() == |src|
      invariant forall i :: 0 <= i < |tokens| ==> (tokens[i].kind.EOF? <==> done && i == |tokens| - 1)
      decreases !done, lexer.Budget()
    {
      hide *;
      ghost var n, floor, seen, errs0 := lexer.Abs(), lexer.Floor(), lexer.comments, lexer.errs;
      var tok := lexer.Next();
      RecordNext(src, tokens, n, floor, tok, seen, errs0);
      ReadNext(src, tokens, n, floor, tok, lexer.Abs());
      tokens := tokens + [tok];
      done := tok.kind.EOF?;
    }
    ReadWhole(src, tokens, lexer.Abs());
    comments, errs := lexer.comments, lexer.errs;
    RecordedIsWrong(src, tokens, comments, errs);
  }

  /** After EOF there is only EOF. */
  method NothingAfterEnd(lexer: Lexer) returns (tok: Token)
    requires lexer.Valid() && lexer.AtEnd()
    modifies lexer
    ensures tok.kind.EOF? && lexer.Valid() && lexer.AtEnd()
  {
    tok := lexer.Next();
  }

  lemma ReplayPrefix(tokens: seq<Token>, k: nat)
    requires Replay(tokens).Some? && k <= |tokens|
    ensures Replay(tokens[..k]).Some?
    decreases |tokens|
  {
    if k == |tokens| {
      assert tokens[..k] == tokens;
    } else {
      ReplayPrefix(tokens[..|tokens| - 1], k);
      assert tokens[..|tokens| - 1][..k] == tokens[..k];
    }
  }

  lemma ReplayStep(tokens: seq<Token>, k: nat)
    requires Replay(tokens).Some? && k < |tokens|
    ensures Step(At(tokens, k), tokens[k].kind) == Some(At(tokens, k + 1))
  {
    assert tokens[..k + 1][..k] == tokens[..k];
  }

  /** The state of the reader before token k. */
  ghost function At(tokens: seq<Token>, k: nat): (n: Nest)
    requires Replay(tokens).Some? && k <= |tokens|
    ensures Replay(tokens[..k]) == Some(n)
  {
    ReplayPrefix(tokens, k);
    Replay(tokens[..k]).value
  }

  lemma AtStart(tokens: seq<Token>)
    requires Replay(tokens).Some?
    ensures At(tokens, 0) == Nest([], Plain, false)
  {
    assert tokens[..0] == [];
  }

  /** How many interpolations are open before token k. */
  ghost function Depth(tokens: seq<Token>, k: nat): nat
    requires Replay(tokens).Some? && k <= |tokens|
  {
    |At(tokens, k).frames|
  }

  /** Marker o opened the frame at depth d that is still open before token k. */
  ghost predicate Opens(tokens: seq<Token>, o: nat, d: nat, k: nat, multi: bool)
    requires Replay(tokens).Some? && k <= |tokens|
  {
    && 0 < o < k && tokens[o].kind == LInterp
    && (tokens[o - 1].kind == StringBeg(multi) || tokens[o - 1].kind == StringCont(multi))
    && Depth(tokens, o) == d
    && forall j: nat :: o < j <= k ==> Depth(tokens, j) > d
  }

  ghost function Weight(k: Kind): int {
    if k == LBrace then 1 else if k == RBrace then -1 else 0
  }

  /** Opening less closing braces among the tokens first..stop that stand at this depth. */
  ghost function Balance(tokens: seq<Token>, first: nat, stop: nat, depth: nat): int
    requires Replay(tokens).Some? && first <= stop <= |tokens|
    decreases stop
  {
    if first == stop then 0
    else
      var k := stop - 1;
      Balance(tokens, first, k, depth) + (if Depth(tokens, k) == depth then Weight(tokens[k].kind) else 0)
  }

  /** Since token o no more braces were closed than opened. */
  ghost predicate NoneTooMany(tokens: seq<Token>, o: nat, stop: nat, depth: nat)
    requires Replay(tokens).Some? && o < stop <= |tokens|
  {
    Balance(tokens, o + 1, stop, depth) >= 0
  }

  /** From its marker o on, frame d counts one brace more than are open in it. */
  ghost predicate Counts(tokens: seq<Token>, o: nat, d: nat, j: nat)
    requires Replay(tokens).Some? && o < j <= |tokens|
  {
    Depth(tokens, j) > d && At(tokens, j).frames[d].braces == 1 + Balance(tokens, o + 1, j, d + 1)
  }

  /** What a token does to the frames. */
  lemma StepFrames(n: Nest, k: Kind)
    requires Step(n, k).Some?
    ensures
      var m := Step(n, k).value;
      if k.LInterp? then n.phase.Opened? && m.frames == n.frames + [Frame(1, n.phase.multi)]
      else if k.RInterp? then n.frames != [] && m.frames == n.frames[..|n.frames| - 1] &&
        m.phase == Closed(n.frames[|n.frames| - 1].multi)
      else |m.frames| == |n.frames| && forall i :: 0 <= i < |n.frames| ==>
        m.frames[i] == Frame(n.frames[i].braces + (if i == |n.frames| - 1 then Weight(k) else 0), n.frames[i].multi)
    ensures Step(n, k).value.phase.Opened? ==>
      var m := Step(n, k).value.phase.multi;
      k == StringBeg(m) || k == StringCont(m)
  {
  }

  /** Every open frame has its marker, right after a segment of the frame's flavour, and since then counts the
      braces that stand directly in it. */
  lemma {:induction false} FrameHasMarker(tokens: seq<Token>, k: nat, d: nat) returns (o: nat)
    requires Replay(tokens).Some? && k <= |tokens| && d < Depth(tokens, k)
    ensures Opens(tokens, o, d, k, At(tokens, k).frames[d].multi)
    ensures forall j: nat :: o < j <= k ==> Counts(tokens, o, d, j)
    decreases k
  {
    hide Step;
    assert k > 0 by {
      AtStart(tokens);
    }
    ReplayStep(tokens, k - 1);
    var before := At(tokens, k - 1);
    StepFrames(before, tokens[k - 1].kind);
    if d < |before.frames| {
      o := FrameHasMarker(tokens, k - 1, d);
      CountsOn(tokens, o, d, k);
    } else {
      o := k - 1;
      assert k > 1 by {
        AtStart(tokens);
      }
      ReplayStep(tokens, k - 2);
      StepFrames(At(tokens, k - 2), tokens[k - 2].kind);
      assert Counts(tokens, o, d, k);
    }
  }

  lemma CountsOn(tokens: seq<Token>, o: nat, d: nat, k: nat)
    requires Replay(tokens).Some? && o + 1 < k <= |tokens| && Counts(tokens, o, d, k - 1) && Depth(tokens, k) > d
    ensures Counts(tokens, o, d, k)
  {
    hide Step, Replay, Weight, At, Balance;
    var i := k - 1;
    ReplayStep(tokens, i);
    BracesStep(At(tokens, i), tokens[i].kind, d);
    BalanceStep(tokens, o + 1, i, d + 1);
  }

  lemma BracesStep(n: Nest, k: Kind, d: nat)
    requires Step(n, k).Some? && d < |n.frames| && d < |Step(n, k).value.frames|
    ensures Step(n, k).value.frames[d].braces == n.frames[d].braces + (if |n.frames| == d + 1 then Weight(k) else 0)
  {
    hide Step;
    StepFrames(n, k);
    WeightOfMarkers(k);
  }

  lemma BalanceStep(tokens: seq<Token>, first: nat, k: nat, depth: nat)
    requires Replay(tokens).Some? && first <= k < |tokens|
    ensures Balance(tokens, first, k + 1, depth) ==
      Balance(tokens, first, k, depth) + (if Depth(tokens, k) == depth then Weight(tokens[k].kind) else 0)
  {
    hide Replay, At, Weight;
  }

  lemma WeightOfMarkers(k: Kind)
    ensures k.LInterp? || k.RInterp? ==> Weight(k) == 0
  {
  }

  /** The token after the close of an interpolation goes on with the string around it: there is a matching
      marker, everything between them is nested deeper, the braces between them balance, with no close before
      its opening, and the segment before the marker has the flavour of the one after the close. */
  lemma InterpolationsMatch(tokens: seq<Token>, k: nat) returns (o: nat, multi: bool)
    requires Replay(tokens).Some? && k + 1 < |tokens| && tokens[k].kind == RInterp
    ensures tokens[k + 1].kind == StringCont(multi) || tokens[k + 1].kind == StringEnd(multi)
    ensures Depth(tokens, k) > 0 && Opens(tokens, o, Depth(tokens, k) - 1, k, multi)
    ensures Balance(tokens, o + 1, k, Depth(tokens, k)) == 0
    ensures forall j: nat :: o < j <= k ==> NoneTooMany(tokens, o, j, Depth(tokens, k))
  {
    hide Replay, Opens, Braced;
    ReplayStep(tokens, k);
    ReplayStep(tokens, k + 1);
    var n := At(tokens, k);
    o := FrameHasMarker(tokens, k, |n.frames| - 1);
    MarkerIsBefore(tokens, o, |n.frames| - 1, k);
    multi := n.frames[|n.frames| - 1].multi;
    assert Counts(tokens, o, |n.frames| - 1, k);
    forall j: nat | o < j <= k ensures NoneTooMany(tokens, o, j, |n.frames|) {
      assert Counts(tokens, o, |n.frames| - 1, j);
      FramesStayPositive(tokens[..j]);
      assert At(tokens, j).frames[|n.frames| - 1] in At(tokens, j).frames;
    }
  }

  lemma MarkerIsBefore(tokens: seq<Token>, o: nat, d: nat, k: nat)
    requires Replay(tokens).Some? && k <= |tokens|
    requires exists multi :: Opens(tokens, o, d, k, multi)
    ensures 0 < o < k
  {
  }

  /** A segment that ends at a marker is followed by it. */
  lemma MarkersFollowSegments(tokens: seq<Token>, k: nat)
    requires Replay(tokens).Some? && k + 1 < |tokens|
    ensures tokens[k].kind.StringBeg? || tokens[k].kind.StringCont? <==> tokens[k + 1].kind.LInterp?
  {
    hide Replay, EndsStatement, Braced;
    ReplayStep(tokens, k);
    ReplayStep(tokens, k + 1);
  }

  /** A semicolon is only inserted where a statement can end. */
  lemma SemisEndStatements(tokens: seq<Token>, k: nat)
    requires Replay(tokens).Some? && k + 1 < |tokens| && tokens[k + 1].kind.Semi?
    ensures var kind := tokens[k].kind;
      || kind.Ident? || kind.Int? || kind.String? || kind.StringEnd?
      || kind in {RBrace, RBrack, RParen, Keyword("true"), Keyword("false"), Keyword("none"), Keyword("self"),
                  Keyword("return")}
  {
    hide Replay, Braced;
    ReplayStep(tokens, k);
    ReplayStep(tokens, k + 1);
  }

  /** Every open frame counts at least its own opening marker. */
  lemma {:induction false} FramesStayPositive(tokens: seq<Token>)
    requires Replay(tokens).Some?
    ensures forall f :: f in Replay(tokens).value.frames ==> f.braces >= 1
    decreases |tokens|
  {
    if tokens != [] {
      FramesStayPositive(tokens[..|tokens| - 1]);
      StepKeepsPositive(Replay(tokens[..|tokens| - 1]).value, tokens[|tokens| - 1].kind);
    }
  }

  lemma StepKeepsPositive(n: Nest, k: Kind)
    requires Step(n, k).Some? && forall f :: f in n.frames ==> f.braces >= 1
    ensures forall f :: f in Step(n, k).value.frames ==> f.braces >= 1
  {
    if n.frames != [] {
      assert n.frames[|n.frames| - 1] in n.frames;
    }
    if k.LBrace? {
      BracedKeepsPositive(n.frames, 1);
    } else if k.RBrace? {
      BracedKeepsPositive(n.frames, -1);
    }
  }
}
