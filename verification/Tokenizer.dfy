/** String literals and the SQL tokenizer (sqltypes/sqltypes.go, sqlparser/token.go). */
module Tokenizer {
  import opened Wrappers
  import opened Decimal

  // ---------------------------------------------------------------- string literals

  /** SqlEncodeMap: what follows the backslash; `None` is DONTESCAPE. */
  function SqlEncode(c: char): Option<char> {
    match c
    case '\0' => Some('0')
    case '\'' => Some('\'')
    case '"' => Some('"')
    case '\U{8}' => Some('b')
    case '\n' => Some('n')
    case '\r' => Some('r')
    case '\t' => Some('t')
    case '\U{1a}' => Some('Z')
    case '\\' => Some('\\')
    case _ => None
  }

  /** SqlDecodeMap, the table read after a backslash. */
  function SqlDecode(c: char): Option<char> {
    match c
    case '0' => Some('\0')
    case '\'' => Some('\'')
    case '"' => Some('"')
    case 'b' => Some('\U{8}')
    case 'n' => Some('\n')
    case 'r' => Some('\r')
    case 't' => Some('\t')
    case 'Z' => Some('\U{1a}')
    case '\\' => Some('\\')
    case _ => None
  }

  function EscapedChar(c: char): string {
    if SqlEncode(c).None? then [c] else ['\\', SqlEncode(c).value]
  }

  function Escaped(s: string): string {
    if s == "" then "" else EscapedChar(s[0]) + Escaped(s[1..])
  }

  /** The literal encodeSql writes for a string. */
  function Quoted(s: string): string { "'" + Escaped(s) + "'" }

  lemma {:induction false} EscapedSnoc(s: string, c: char)
    ensures Escaped(s + [c]) == Escaped(s) + EscapedChar(c)
  {
    if s == "" {
      assert Escaped("") == "" && (s + [c])[1..] == "";
    } else {
      EscapedSnoc(s[1..], c);
      assert (s + [c])[1..] == s[1..] + [c];
    }
  }

  method EncodeSql(s: string) returns (b: string)
    ensures b == Quoted(s)
  {
    b := "'";
    for i := 0 to |s|
      invariant b == "'" + Escaped(s[..i])
    {
      EscapedSnoc(s[..i], s[i]);
      assert s[..i + 1] == s[..i] + [s[i]];
      if SqlEncode(s[i]).None? {
        b := b + [s[i]];
      } else {
        b := b + ['\\'];
        b := b + [SqlEncode(s[i]).value];
      }
    }
    assert s[..|s|] == s;
    b := b + "'";
  }

  /** The result of scanning a literal after its opening quote. */
  datatype Body = Body(ok: bool, value: string, rest: string)

  function Prefixed(s: string, b: Body): Body { b.(value := s + b.value) }

  function Literal(rest: string, delim: char): (b: Body)
    ensures |b.rest| <= |rest|
    decreases |rest|
  {
    if rest == "" then Body(false, "", "")
    else if rest[0] == delim then
      if |rest| > 1 && rest[1] == delim then Prefixed([delim], Literal(rest[2..], delim))
      else Body(true, "", rest[1..])
    else if rest[0] == '\\' then
      if |rest| == 1 then Body(false, "", "")
      else Prefixed([Unescaped(rest[1])], Literal(rest[2..], delim))
    else Prefixed([rest[0]], Literal(rest[1..], delim))
  }

  function Unescaped(c: char): char { if SqlDecode(c).None? then c else SqlDecode(c).value }

  lemma PrefixedTwice(a: string, b: string, body: Body)
    ensures Prefixed(a, Prefixed(b, body)) == Prefixed(a + b, body)
  {
    assert a + (b + body.value) == a + b + body.value;
  }

  lemma LiteralOfPlain(c: char, tail: string)
    requires c != '\'' && c != '\\'
    ensures Literal([c] + tail, '\'') == Prefixed([c], Literal(tail, '\''))
  {
    assert ([c] + tail)[1..] == tail;
  }

  lemma LiteralOfPair(e: char, tail: string)
    ensures Literal(['\\', e] + tail, '\'') == Prefixed([Unescaped(e)], Literal(tail, '\''))
  {
    assert (['\\', e] + tail)[2..] == tail;
  }

  lemma LiteralOfChar(c: char, tail: string)
    ensures Literal(EscapedChar(c) + tail, '\'') == Prefixed([c], Literal(tail, '\''))
  {
    match SqlEncode(c)
    case None => LiteralOfPlain(c, tail);
    case Some(e) =>
      LiteralOfPair(e, tail);
      assert Unescaped(e) == c;
  }

  lemma LiteralOfQuote(after: string)
    ensures Literal("'" + after, '\'') ==
            if after != "" && after[0] == '\'' then Prefixed("'", Literal(after[1..], '\''))
            else Body(true, "", after)
  {
    var text := "'" + after;
    assert text[1..] == after;
    if after != "" { assert text[2..] == after[1..]; }
  }

  /** Scanning an encoded string gives the string back, up to the closing quote; if another quote
      follows, the two read as one and the literal goes on. */
  lemma {:induction false} LiteralOfEscaped(s: string, after: string)
    ensures Literal(Escaped(s) + "'" + after, '\'') == Prefixed(s, Literal("'" + after, '\''))
  {
    if s == "" {
      assert Escaped(s) + "'" + after == "'" + after;
    } else {
      var tail := Escaped(s[1..]) + "'" + after;
      assert Escaped(s) + "'" + after == EscapedChar(s[0]) + tail;
      LiteralOfChar(s[0], tail);
      LiteralOfEscaped(s[1..], after);
      PrefixedTwice([s[0]], s[1..], Literal("'" + after, '\''));
      assert [s[0]] + s[1..] == s;
    }
  }

  /** The round trip holds exactly when the text after the literal does not begin with a quote. */
  lemma LiteralRoundTripIff(s: string, after: string)
    ensures Literal(Escaped(s) + "'" + after, '\'') == Body(true, s, after) <==>
            !(after != "" && after[0] == '\'')
  {
    LiteralOfEscaped(s, after);
    LiteralOfQuote(after);
  }

  // ---------------------------------------------------------------- tokens

  datatype Look = Ch(c: char) | EOF

  datatype TokenType =
    | END | LEX_ERROR | ID | KEYWORD | STRING | NUMBER | VALUE_ARG | LIST_ARG | COMMENT
    | NE | LE | GE | NULL_SAFE_EQUAL | PUNCT(c: char)

  predicate IsLetter(l: Look) {
    l.Ch? && ('a' <= l.c <= 'z' || 'A' <= l.c <= 'Z' || l.c == '_' || l.c == '@')
  }

  predicate IsDigitLook(l: Look) { l.Ch? && IsDigit(l.c) }

  predicate IsWord(c: char) { IsLetter(Ch(c)) || IsDigit(c) }

  predicate IsBlank(c: char) { c == ' ' || c == '\n' || c == '\r' || c == '\t' }

  /** Kinds of characters that make up runs: words, dotted names, digits of a base. */
  datatype Kind = Word | Dotted | Digits(base: nat)

  predicate IsKind(kind: Kind, c: char) {
    match kind
    case Word => IsWord(c)
    case Dotted => IsWord(c) || c == '.'
    case Digits(base) => DigitVal(c) < base
  }

  /** The length of the run of characters of a kind at the head of a text. */
  function RunLen(kind: Kind, s: string): (n: nat)
    ensures n <= |s| && (forall i :: 0 <= i < n ==> IsKind(kind, s[i])) && (n < |s| ==> !IsKind(kind, s[n]))
  {
    if s == "" || !IsKind(kind, s[0]) then 0 else 1 + RunLen(kind, s[1..])
  }

  lemma RunLenIs(kind: Kind, run: string, tail: string)
    requires (forall i :: 0 <= i < |run| ==> IsKind(kind, run[i])) && (tail != "" ==> !IsKind(kind, tail[0]))
    ensures RunLen(kind, run + tail) == |run|
  {
    var s := run + tail;
    assert forall i :: 0 <= i < |run| ==> s[i] == run[i];
    assert tail != "" ==> s[|run|] == tail[0];
  }

  /** Taking the first `n` characters of `rest` turns a buffer into `now` and leaves `after`. */
  predicate Took(n: nat, rest: string, before: string, now: string, after: string) {
    before <= now && now + after == before + rest && |now| == |before| + n
  }

  lemma TookRest(n: nat, r: string, b: string, b': string, r': string)
    requires Took(n, r, b, b', r')
    ensures n <= |r| && b' == b + r[..n] && r' == r[n..]
  {
    assert |r'| == |r| - n;
    assert forall i :: 0 <= i < |r'| ==> r'[i] == (b' + r')[|b'| + i] == (b + r)[|b| + n + i];
    assert forall i :: 0 <= i < n ==> b'[|b| + i] == (b' + r')[|b| + i] == (b + r)[|b| + i] == r[i];
  }

  /** One take after another; `r1` is what the first left. */
  lemma TookThen(n: nat, m: nat, r: string, b: string, b1: string, r1: string, b2: string, r2: string)
    requires Took(n, r, b, b1, r1) && Took(m, r1, b1, b2, r2)
    ensures Took(n + m, r, b, b2, r2) && n <= |r| && r1 == r[n..]
  {
    TookRest(n, r, b, b1, r1);
  }

  /** A buffer that took all characters of a kind and stopped before another. */
  lemma TookRun(kind: Kind, r: string, b: string, b': string, r': string)
    requires b <= b' && b' + r' == b + r
    requires (forall i :: |b| <= i < |b'| ==> IsKind(kind, b'[i])) && (r' != "" ==> !IsKind(kind, r'[0]))
    ensures Took(RunLen(kind, r), r, b, b', r')
  {
    TookRest(|b'| - |b|, r, b, b', r');
    var run := r[..|b'| - |b|];
    assert forall i :: 0 <= i < |run| ==> run[i] == b'[|b| + i];
    RunLenIs(kind, run, r');
    assert run + r' == r;
  }

  function WordLen(s: string): nat { RunLen(Word, s) }

  function DigitsLen(base: nat, s: string): (n: nat)
    ensures n <= |s|
  {
    RunLen(Digits(base), s)
  }

  predicate Starts(s: string, c: char) { s != "" && s[0] == c }

  function SkipBlanks(s: string): (r: string)
    ensures |r| <= |s| && (r != "" ==> !IsBlank(r[0]))
  {
    if s == "" || !IsBlank(s[0]) then s else SkipBlanks(s[1..])
  }

  /** Where the next token starts: one pending NUL is dropped, then blanks. */
  function TokenStart(s: string): (r: string)
    ensures |r| <= |s|
  {
    SkipBlanks(if s != "" && s[0] == '\0' then s[1..] else s)
  }

  /** The outcome of scanning a string literal whose opening quote is consumed. */
  predicate StringRead(rest: string, delim: char, typ: TokenType, val: string, after: string) {
    var b := Literal(rest, delim);
    typ == (if b.ok then STRING else LEX_ERROR) && val == b.value && after == b.rest
  }

  predicate StartsHex(s: string) { |s| >= 2 && s[0] == 'x' && s[1] == '\'' }

  /** The text a word is actually read from. */
  function Reread(rest: string): string { if rest == "x" then "xx" else rest }

  /** The outcome of scanning a word: the whole run of identifier characters. */
  predicate WordRead(rest: string, typ: TokenType, val: string, after: string) {
    var text := Reread(rest);
    typ in {ID, KEYWORD} && val + after == text && |val| == WordLen(text)
  }

  /** A word is a keyword exactly when the table has it. */
  predicate Told(keywords: set<string>, rest: string, typ: TokenType, val: string) {
    rest != "" && IsLetter(Ch(rest[0])) && !StartsHex(rest) ==> typ == (if val in keywords then KEYWORD else ID)
  }

  predicate StartsExponent(s: string) { Starts(s, 'e') || Starts(s, 'E') }

  predicate StartsSign(s: string) { Starts(s, '+') || Starts(s, '-') }

  /** The length of an exponent, and of a fraction with its exponent; zero when there is none. */
  function ExponentLen(s: string): (n: nat)
    ensures n <= |s|
  {
    if !StartsExponent(s) then 0
    else if StartsSign(s[1..]) then 2 + DigitsLen(10, s[2..])
    else 1 + DigitsLen(10, s[1..])
  }

  function PointLen(s: string): (n: nat)
    ensures n <= |s|
  {
    if Starts(s, '.') then 1 + DigitsLen(10, s[1..]) else 0
  }

  function FractionLen(s: string): (n: nat)
    ensures n <= |s|
  {
    PointLen(s) + ExponentLen(s[PointLen(s)..])
  }

  predicate IsHex(s: string) { Starts(s, '0') && (Starts(s[1..], 'x') || Starts(s[1..], 'X')) }

  /** The length of a number. After a point that was read already no other point belongs to it. */
  function NumberLen(s: string, afterPoint: bool): (n: nat)
    ensures n <= |s|
  {
    if !afterPoint && IsHex(s) then 2 + DigitsLen(16, s[2..])
    else var d := DigitsLen(10, s); d + if afterPoint then ExponentLen(s[d..]) else FractionLen(s[d..])
  }

  /** An integer with a leading zero and a digit that is not octal. */
  predicate BadOctal(s: string) {
    var d := DigitsLen(10, s);
    Starts(s, '0') && DigitsLen(8, s) < d && !Starts(s[d..], '.') && !StartsExponent(s[d..])
  }

  lemma RunFrom(kind: Kind, s: string, k: nat)
    requires k <= RunLen(kind, s)
    ensures RunLen(kind, s) == k + RunLen(kind, s[k..])
  {
    var n, m := RunLen(kind, s), RunLen(kind, s[k..]);
    assert forall i :: 0 <= i < m ==> s[k..][i] == s[k + i];
    assert m < |s| - k ==> s[k..][m] == s[k + m];
  }

  /** Octal digits are decimal digits; after them an 8 or a 9 comes exactly when there are more digits. */
  lemma OctalDigits(s: string)
    requires Starts(s, '0')
    ensures DigitsLen(8, s) == 1 + DigitsLen(8, s[1..]) <= DigitsLen(10, s)
    ensures var d := DigitsLen(8, s);
            && DigitsLen(10, s) == d + DigitsLen(10, s[d..])
            && (Starts(s[d..], '8') || Starts(s[d..], '9') <==> d < DigitsLen(10, s))
  {
    var d, n := DigitsLen(8, s), DigitsLen(10, s);
    assert n < d ==> IsKind(Digits(8), s[n]);
    RunFrom(Digits(10), s, d);
    if d < n { assert IsKind(Digits(10), s[d]); }
  }

  predicate NumberRead(rest: string, afterPoint: bool, typ: TokenType, val: string, after: string) {
    && typ == (if !afterPoint && BadOctal(rest) then LEX_ERROR else NUMBER)
    && Took(NumberLen(rest, afterPoint), rest, if afterPoint then "." else "", val, after)
  }

  /** A bind variable: one colon or two, then a name. */
  predicate BindVarRead(rest: string, typ: TokenType, val: string, after: string)
    requires rest != ""
  {
    if Starts(rest[1..], ':') then NameRead(2, LIST_ARG, rest, typ, val, after)
    else NameRead(1, VALUE_ARG, rest, typ, val, after)
  }

  predicate NameRead(colons: nat, token: TokenType, rest: string, typ: TokenType, val: string, after: string)
    requires colons <= |rest|
  {
    if |rest| > colons && IsLetter(Ch(rest[colons])) then
      typ == token && Took(colons + RunLen(Dotted, rest[colons..]), rest, "", val, after)
    else typ == LEX_ERROR && Took(colons, rest, "", val, after)
  }

  /** The rest of a hexadecimal literal, after its opening quote: a doubled quote stands for one. */
  function HexBody(rest: string): (b: Body)
    ensures |b.rest| <= |rest|
    decreases |rest|
  {
    if rest == "" then Body(false, "", "")
    else if rest[0] != '\'' then Prefixed([rest[0]], HexBody(rest[1..]))
    else if Starts(rest[1..], '\'') then Prefixed("'", HexBody(rest[2..]))
    else Body(true, "", rest[1..])
  }

  predicate HexRead(rest: string, typ: TokenType, val: string, after: string) {
    var b := HexBody(rest);
    && typ == (if b.ok then STRING else LEX_ERROR) && after == b.rest
    && val == "x'" + b.value + if b.ok then "'" else ""
  }

  /** A comment to the end of its line, the newline included. */
  predicate LineRead(rest: string, opening: string, val: string, after: string) {
    && opening <= val && val + after == opening + rest
    && (forall i :: |opening| <= i < |val| - 1 ==> val[i] != '\n')
    && (after == "" || (|val| > |opening| && val[|val| - 1] == '\n'))
  }

  predicate Closes(s: string, i: nat) { i + 1 < |s| && s[i] == '*' && s[i + 1] == '/' }

  /** No closing mark after the opening one. */
  predicate Open(s: string) { forall i: nat :: 2 <= i < |s| ==> !Closes(s, i) }

  lemma OpenMore(s: string, c: char)
    requires Open(s) && |s| >= 2
    ensures Open(s + [c]) <==> !(|s| > 2 && s[|s| - 1] == '*' && c == '/')
  {
    var s' := s + [c];
    assert forall i: nat :: i + 1 < |s| ==> Closes(s', i) == Closes(s, i);
    assert |s| > 2 ==> (Closes(s', |s| - 1) <==> s[|s| - 1] == '*' && c == '/');
  }

  /** A comment to its first closing mark, or to the end of the text when there is none. */
  predicate BlockRead(rest: string, typ: TokenType, val: string, after: string) {
    && "/*" <= val && val + after == "/*" + rest
    && (if typ.COMMENT? then |val| >= 4 && Closes(val, |val| - 2) && Open(val[..|val| - 1])
        else typ.LEX_ERROR? && after == "" && Open(val))
  }

  /** A back-quoted name, after its opening quote: a letter and the rest of the word, then a quote. */
  predicate QuotedNameRead(rest: string, typ: TokenType, val: string, after: string) {
    if rest == "" || !IsLetter(Ch(rest[0])) then
      typ == LEX_ERROR && val == (if rest == "" then "\0" else [rest[0]]) && after == rest
    else
      var n := WordLen(rest);
      && val == rest[..n]
      && (if Starts(rest[n..], '`') then typ == ID && after == rest[n + 1..] else typ == LEX_ERROR && after == rest[n..])
  }

  predicate IsPunct(ch: char) {
    ch == '=' || ch == ',' || ch == ';' || ch == '(' || ch == ')' || ch == '+' || ch == '*' || ch == '%' || ch == '&' ||
    ch == '|' || ch == '^' || ch == '~'
  }

  /** Comparison operators: the longest one that is written there. */
  predicate ComparisonRead(ch: char, rest: string, typ: TokenType, val: string, after: string) {
    if ch == '<' && Starts(rest, '>') then typ == NE && val == "" && after == rest[1..]
    else if ch == '<' && Starts(rest, '=') && Starts(rest[1..], '>') then typ == NULL_SAFE_EQUAL && val == "" &&
      after == rest[2..]
    else if ch == '<' && Starts(rest, '=') then typ == LE && val == "" && after == rest[1..]
    else if ch == '>' && Starts(rest, '=') then typ == GE && val == "" && after == rest[1..]
    else if ch == '!' && Starts(rest, '=') then typ == NE && val == "" && after == rest[1..]
    else if ch == '!' then typ == LEX_ERROR && val == "!" && after == rest
    else typ == PUNCT(ch) && val == "" && after == rest
  }

  /** A comment, or the character by itself. */
  predicate DashRead(ch: char, rest: string, typ: TokenType, val: string, after: string) {
    if Starts(rest, ch) then typ.COMMENT? && LineRead(rest[1..], [ch, ch], val, after)
    else if ch == '/' && Starts(rest, '*') then BlockRead(rest[1..], typ, val, after)
    else typ == PUNCT(ch) && val == "" && after == rest
  }

  /** The token that `ch` begins together with what follows it; a `?` is a variable by its number. */
  predicate OperatorRead(ch: char, rest: string, typ: TokenType, val: string, after: string) {
    if ch == '\'' || ch == '"' then StringRead(rest, ch, typ, val, after)
    else if ch == '`' then QuotedNameRead(rest, typ, val, after)
    else if ch == '<' || ch == '>' || ch == '!' then ComparisonRead(ch, rest, typ, val, after)
    else if ch == '/' || ch == '-' then DashRead(ch, rest, typ, val, after)
    else if ch == '.' && rest != "" && IsDigit(rest[0]) then NumberRead(rest, true, typ, val, after)
    else if ch == '.' || IsPunct(ch) then typ == PUNCT(ch) && val == "" && after == rest
    else if ch == '?' then typ == VALUE_ARG && ":v" <= val && after == rest
    else typ == LEX_ERROR && val == [ch] && after == rest
  }

  /** The outcome of scanning the token at the head of a text, by the character it begins with. */
  predicate TokenRead(r: string, typ: TokenType, val: string, after: string)
    requires r != ""
  {
    if StartsHex(r) then HexRead(r[2..], typ, val, after)
    else if IsLetter(Ch(r[0])) then WordRead(r, typ, val, after)
    else if IsDigit(r[0]) then NumberRead(r, false, typ, val, after)
    else if r[0] == ':' then BindVarRead(r, typ, val, after)
    else OperatorRead(r[0], r[1..], typ, val, after)
  }

  /** A comment stands at the head of a text, blanks aside. */
  ghost predicate CommentRead(rest: string, after: string) {
    TokenStart(rest) != "" && exists val :: TokenRead(TokenStart(rest), COMMENT, val, after)
  }

  /** Texts from `first` on, each left by a comment at the head of the one before. */
  ghost predicate Skipped(at: seq<string>, first: string) {
    at != [] && at[0] == first && forall i :: 0 <= i < |at| - 1 ==> CommentRead(at[i], at[i + 1])
  }

  lemma SkipMore(at: seq<string>, first: string, val: string, after: string)
    requires Skipped(at, first) && TokenStart(at[|at| - 1]) != "" &&
             TokenRead(TokenStart(at[|at| - 1]), COMMENT, val, after)
    ensures Skipped(at + [after], first)
  {
    assert CommentRead(at[|at| - 1], after);
  }

  /** The token at the head of a text, blanks aside, or the end. */
  predicate NextRead(rest: string, typ: TokenType, val: string, after: string) {
    var r := TokenStart(rest);
    if r == "" then typ.END? else !typ.END? && TokenRead(r, typ, val, after)
  }

  /** The same, with keywords told apart. */
  predicate LexRead(keywords: set<string>, rest: string, typ: TokenType, val: string, after: string) {
    NextRead(rest, typ, val, after) && Told(keywords, TokenStart(rest), typ, val)
  }

  /** A word token is the word that was written exactly when it is not a final `x`. */
  lemma WordExactIff(rest: string, typ: TokenType, val: string, after: string)
    requires rest != "" && IsLetter(Ch(rest[0])) && WordRead(rest, typ, val, after)
    ensures val == rest[..WordLen(rest)] && after == rest[WordLen(rest)..] <==> rest != "x"
  {
    if rest != "x" {
      assert rest[..|val|] == val && rest[|val|..] == after;
    } else {
      assert WordLen("xx") == 2 by { assert WordLen("xx"[1..]) == 1; }
    }
  }

  class Tokenizer {
    const input: string
    const keywords: set<string>
    const allowComments: bool
    var forceEOF: bool
    var off: nat          // read offset of the input stream
    var last: Look        // lastChar: one character of lookahead
    var position: nat
    var posVarIndex: nat

    /** The lookahead plus the unread bytes. A fresh tokenizer has a NUL as lookahead. */
    ghost function Rest(): (r: string)
      reads this
      requires off <= |input|
    {
      (if last.Ch? then [last.c] else "") + input[off..]
    }

    /** Enough to go on reading; the push-back after `x` may break the rest of Valid. */
    ghost predicate Readable()
      reads this
    {
      off <= |input| && (last.EOF? ==> off == |input|)
    }

    ghost predicate Valid()
      reads this
    {
      Readable() && (last.Ch? ==> last.c == if off == 0 then '\0' else input[off - 1])
    }

    constructor (sql: string, keywords: set<string>, allowComments: bool)
      ensures Valid() && Rest() == "\0" + sql && !forceEOF && posVarIndex == 0
    {
      input, this.keywords, this.allowComments := sql, keywords, allowComments;
      forceEOF, off, last, position, posVarIndex := false, 0, Ch('\0'), 0, 0;
    }

    method Next()
      requires Readable()
      modifies this`off, this`last, this`position
      ensures Valid()
      ensures Rest() == if old(Rest()) == "" then "" else old(Rest())[1..]
    {
      if off < |input| {
        last := Ch(input[off]);
        off := off + 1;
      } else {
        last := EOF;
      }
      position := position + 1;
    }

    /** Stepping the stream back one byte, whatever was read last. */
    method UnReadByte()
      requires 0 < off <= |input|
      modifies this`off
      ensures off == old(off) - 1
    {
      off := off - 1;
    }

    /** Its precondition is the panic guard of ConsumeNext: never called at end of input. */
    method ConsumeNext(buffer: string) returns (buffer': string)
      requires Readable() && last.Ch?
      modifies this`off, this`last, this`position
      ensures Valid() && buffer' == buffer + [old(last).c]
      ensures buffer' + Rest() == buffer + old(Rest())
    {
      buffer' := buffer + [last.c];
      Next();
    }

    method SkipBlank()
      requires Valid()
      modifies this`off, this`last, this`position
      ensures Valid() && Rest() == SkipBlanks(old(Rest()))
    {
      var ch := last;
      while ch.Ch? && IsBlank(ch.c)
        invariant Valid() && ch == last
        invariant SkipBlanks(Rest()) == SkipBlanks(old(Rest()))
        decreases |Rest()|
      {
        Next();
        ch := last;
      }
    }

    /** An identifier is the whole run of identifier characters. */
    method ScanIdentifier() returns (typ: TokenType, val: string)
      requires Readable() && IsLetter(last)
      modifies this`off, this`last, this`position
      ensures Valid() && typ == (if val in keywords then KEYWORD else ID)
      ensures val + Rest() == old(Rest()) && |val| == WordLen(old(Rest()))
    {
      val := ScanWordRun();
      typ := if val in keywords then KEYWORD else ID;
    }

    method ScanLiteralIdentifier() returns (typ: TokenType, val: string)
      requires Valid()
      modifies this`off, this`last, this`position
      ensures Valid() && |Rest()| <= |old(Rest())|
      ensures QuotedNameRead(old(Rest()), typ, val, Rest())
    {
      ghost var r := Rest();
      if !IsLetter(last) {
        return LEX_ERROR, if last.Ch? then [last.c] else "\0";
      }
      val := ScanWordRun();
      TookRest(WordLen(r), r, "", val, Rest());
      if last != Ch('`') {
        return LEX_ERROR, val;
      }
      ghost var n, left := WordLen(r), Rest();
      Next();
      assert left[1..] == r[n + 1..];
      typ := ID;
    }

    /** The run of identifier characters of a word. */
    method ScanWordRun() returns (val: string)
      requires Readable() && IsLetter(last)
      modifies this`off, this`last, this`position
      ensures Valid() && Took(WordLen(old(Rest())), old(Rest()), "", val, Rest())
    {
      val := ConsumeNext("");
      while IsLetter(last) || IsDigitLook(last)
        invariant Valid() && val + Rest() == old(Rest())
        invariant forall i :: 0 <= i < |val| ==> IsKind(Word, val[i])
        decreases |Rest()|
      {
        val := ConsumeNext(val);
      }
      TookRun(Word, old(Rest()), "", val, Rest());
    }

    method ScanBindVar() returns (typ: TokenType, val: string)
      requires Valid() && last == Ch(':')
      modifies this`off, this`last, this`position
      ensures Valid() && |Rest()| < |old(Rest())|
      ensures BindVarRead(old(Rest()), typ, val, Rest())
    {
      ghost var r := Rest();
      val := ConsumeNext("");
      assert r[1..] == Rest();
      if last == Ch(':') {
        val := ConsumeNext(val);
        typ, val := ScanName(LIST_ARG, val, r);
      } else {
        typ, val := ScanName(VALUE_ARG, val, r);
      }
    }

    /** The name after the colons. */
    method ScanName(token: TokenType, colons: string, ghost r: string) returns (typ: TokenType, val: string)
      requires Valid() && colons + Rest() == r
      modifies this`off, this`last, this`position
      ensures Valid() && |Rest()| <= |old(Rest())|
      ensures NameRead(|colons|, token, r, typ, val, Rest())
    {
      ghost var rest := Rest();
      TookRest(|colons|, r, "", colons, rest);
      if !IsLetter(last) {
        return LEX_ERROR, colons;
      }
      val := ScanDotted(colons);
      TookThen(|colons|, RunLen(Dotted, rest), r, "", colons, rest, val, Rest());
      typ := token;
    }

    method ScanDotted(buffer: string) returns (buffer': string)
      requires Valid()
      modifies this`off, this`last, this`position
      ensures Valid()
      ensures Took(RunLen(Dotted, old(Rest())), old(Rest()), buffer, buffer', Rest())
    {
      buffer' := buffer;
      while IsLetter(last) || IsDigitLook(last) || last == Ch('.')
        invariant Valid() && buffer <= buffer' && buffer' + Rest() == buffer + old(Rest())
        invariant forall i :: |buffer| <= i < |buffer'| ==> IsKind(Dotted, buffer'[i])
        decreases |Rest()|
      {
        buffer' := ConsumeNext(buffer');
      }
      TookRun(Dotted, old(Rest()), buffer, buffer', Rest());
    }

    method ScanMantissa(base: nat, buffer: string) returns (buffer': string)
      requires Valid() && base <= 16
      modifies this`off, this`last, this`position
      ensures Valid()
      ensures Took(DigitsLen(base, old(Rest())), old(Rest()), buffer, buffer', Rest())
    {
      buffer' := buffer;
      while last.Ch? && DigitVal(last.c) < base
        invariant Valid() && buffer <= buffer' && buffer' + Rest() == buffer + old(Rest())
        invariant forall i :: |buffer| <= i < |buffer'| ==> IsKind(Digits(base), buffer'[i])
        decreases |Rest()|
      {
        buffer' := ConsumeNext(buffer');
      }
      TookRun(Digits(base), old(Rest()), buffer, buffer', Rest());
    }

    /** The exponent part, when there is one. */
    method ScanExponent(buffer: string) returns (buffer': string)
      requires Valid()
      modifies this`off, this`last, this`position
      ensures Valid()
      ensures Took(ExponentLen(old(Rest())), old(Rest()), buffer, buffer', Rest())
    {
      ghost var r := Rest();
      buffer' := buffer;
      if last == Ch('e') || last == Ch('E') {
        buffer' := ConsumeNext(buffer');
        TookRest(1, r, buffer, buffer', Rest());
        if last == Ch('+') || last == Ch('-') {
          buffer' := ConsumeNext(buffer');
          TookRest(2, r, buffer, buffer', Rest());
        }
        buffer' := ScanMantissa(10, buffer');
      }
    }

    /** The fraction and the exponent, when there are any. */
    method ScanFraction(buffer: string) returns (buffer': string)
      requires Valid()
      modifies this`off, this`last, this`position
      ensures Valid()
      ensures Took(FractionLen(old(Rest())), old(Rest()), buffer, buffer', Rest())
    {
      ghost var r := Rest();
      var b1 := ScanPoint(buffer);
      ghost var r1 := Rest();
      buffer' := ScanExponent(b1);
      TookThen(PointLen(r), ExponentLen(r1), r, buffer, b1, r1, buffer', Rest());
    }

    /** The point and the digits after it, when there is one. */
    method ScanPoint(buffer: string) returns (buffer': string)
      requires Valid()
      modifies this`off, this`last, this`position
      ensures Valid()
      ensures Took(PointLen(old(Rest())), old(Rest()), buffer, buffer', Rest())
    {
      buffer' := buffer;
      if last == Ch('.') {
        ghost var r := Rest();
        buffer' := ConsumeNext(buffer');
        ghost var b1, r1 := buffer', Rest();
        buffer' := ScanMantissa(10, buffer');
        TookThen(1, DigitsLen(10, r1), r, buffer, b1, r1, buffer', Rest());
      }
    }

    /** The token is exactly the text consumed, after the point already read if there was one. */
    method ScanNumber(seenDecimalPoint: bool) returns (typ: TokenType, val: string)
      requires Valid() && IsDigitLook(last)
      modifies this`off, this`last, this`position
      ensures Valid() && |Rest()| < |old(Rest())|
      ensures NumberRead(old(Rest()), seenDecimalPoint, typ, val, Rest())
    {
      if !seenDecimalPoint && last == Ch('0') {
        typ, val := ScanZero();
        return;
      }
      ghost var r := Rest();
      var point := if seenDecimalPoint then "." else "";
      var digits := ScanMantissa(10, point);
      ghost var r1 := Rest();
      if seenDecimalPoint {
        val := ScanExponent(digits);
        TookThen(DigitsLen(10, r), ExponentLen(r1), r, point, digits, r1, val, Rest());
      } else {
        val := ScanFraction(digits);
        TookThen(DigitsLen(10, r), FractionLen(r1), r, point, digits, r1, val, Rest());
      }
      typ := NUMBER;
    }

    /** A number that begins with a zero: hexadecimal, octal, or a fraction. */
    method ScanZero() returns (typ: TokenType, val: string)
      requires Valid() && last == Ch('0')
      modifies this`off, this`last, this`position
      ensures Valid() && |Rest()| < |old(Rest())|
      ensures NumberRead(old(Rest()), false, typ, val, Rest())
    {
      ghost var r := Rest();
      val := ConsumeNext("");
      TookRest(1, r, "", val, Rest());
      if last == Ch('x') || last == Ch('X') {
        val := ScanHexNumber(val, r);
        typ := NUMBER;
      } else {
        typ, val := ScanOctal(val, r);
      }
    }

    method ScanHexNumber(zero: string, ghost r: string) returns (val: string)
      requires Valid() && last.Ch? && Took(1, r, "", zero, Rest())
      modifies this`off, this`last, this`position
      ensures Valid() && |Rest()| < |old(Rest())|
      ensures |r| >= 2 && Took(2 + DigitsLen(16, r[2..]), r, "", val, Rest())
    {
      var mark := ConsumeNext(zero);
      ghost var r1 := Rest();
      val := ScanMantissa(16, mark);
      TookThen(2, DigitsLen(16, r1), r, "", mark, r1, val, Rest());
    }

    method ScanOctal(zero: string, ghost r: string) returns (typ: TokenType, val: string)
      requires Valid() && Starts(r, '0') && !IsHex(r) && Took(1, r, "", zero, Rest())
      modifies this`off, this`last, this`position
      ensures Valid() && |Rest()| < |r|
      ensures NumberRead(r, false, typ, val, Rest())
    {
      ghost var r0 := Rest();
      var seenDecimalDigit := false;
      val := ScanMantissa(8, zero);
      TookThen(1, DigitsLen(8, r0), r, "", zero, r0, val, Rest());
      OctalDigits(r);
      ghost var octal, r1 := val, Rest();
      TookRest(DigitsLen(8, r), r, "", octal, r1);
      if last == Ch('8') || last == Ch('9') {
        seenDecimalDigit := true;
        val := ScanMantissa(10, val);
        TookThen(DigitsLen(8, r), DigitsLen(10, r1), r, "", octal, r1, val, Rest());
      }
      typ, val := EndInteger(val, seenDecimalDigit, r);
    }

    /** After the digits of a number that began with a zero. */
    method EndInteger(buffer: string, seenDecimalDigit: bool, ghost r: string) returns (typ: TokenType, val: string)
      requires Valid() && Starts(r, '0') && !IsHex(r) && Took(DigitsLen(10, r), r, "", buffer, Rest())
      requires seenDecimalDigit <==> DigitsLen(8, r) < DigitsLen(10, r)
      modifies this`off, this`last, this`position
      ensures Valid() && |Rest()| <= |old(Rest())|
      ensures NumberRead(r, false, typ, val, Rest())
    {
      val := buffer;
      ghost var r1 := Rest();
      TookRest(DigitsLen(10, r), r, "", buffer, r1);
      if last == Ch('.') || last == Ch('e') || last == Ch('E') {
        val := ScanFraction(buffer);
        TookThen(DigitsLen(10, r), FractionLen(r1), r, "", buffer, r1, val, Rest());
        return NUMBER, val;
      }
      return if seenDecimalDigit then LEX_ERROR else NUMBER, val;
    }

    /** A quoted string, from just after its opening quote. */
    method ScanString(delim: char) returns (typ: TokenType, val: string)
      requires Valid()
      modifies this`off, this`last, this`position
      ensures Valid()
      ensures StringRead(old(Rest()), delim, typ, val, Rest())
    {
      ghost var whole := Literal(Rest(), delim);
      val := "";
      while true
        invariant Valid() && Prefixed(val, Literal(Rest(), delim)) == whole
        decreases |Rest()|
      {
        ghost var rest := Rest();
        ghost var val0 := val;
        var ch := last;
        Next();
        if ch == Ch(delim) {
          if last != Ch(delim) {
            return STRING, val;
          }
          Next();
          assert rest[2..] == rest[1..][1..];
        } else if ch == Ch('\\') {
          if last.EOF? {
            return LEX_ERROR, val;
          }
          ch := Ch(Unescaped(last.c));
          Next();
          assert rest[2..] == rest[1..][1..];
        }
        if ch.EOF? {
          return LEX_ERROR, val;
        }
        val := val + [ch.c];
        PrefixedTwice(val0, [ch.c], Literal(Rest(), delim));
      }
    }

    /** A hexadecimal literal, from the quote after its `x`; the value keeps `x'...'`. */
    method ScanHexValue() returns (typ: TokenType, val: string)
      requires Valid() && last == Ch('\'')
      modifies this`off, this`last, this`position
      ensures Valid() && |Rest()| < |old(Rest())|
      ensures HexRead(old(Rest())[1..], typ, val, Rest())
    {
      Next();
      var ok, body := ScanHexBody();
      typ, val := if ok then STRING else LEX_ERROR, "x'" + body + if ok then "'" else "";
    }

    /** What is between the quotes; not `ok` when the text ends first. */
    method ScanHexBody() returns (ok: bool, body: string)
      requires Valid()
      modifies this`off, this`last, this`position
      ensures Valid() && Body(ok, body, Rest()) == HexBody(old(Rest()))
    {
      ghost var whole := HexBody(Rest());
      body := "";
      while true
        invariant Valid() && Prefixed(body, HexBody(Rest())) == whole
        decreases |Rest()|
      {
        ghost var rest, body0 := Rest(), body;
        var ch := last;
        Next();
        if ch == Ch('\'') {
          if last != Ch('\'') {
            return true, body;
          }
          Next();
          assert rest[2..] == rest[1..][1..];
        }
        if ch.EOF? {
          return false, body;
        }
        body := body + [ch.c];
        PrefixedTwice(body0, [ch.c], HexBody(Rest()));
      }
    }

    method ScanCommentType1(prefix: string) returns (val: string)
      requires Valid()
      modifies this`off, this`last, this`position
      ensures Valid() && |Rest()| <= |old(Rest())|
      ensures LineRead(old(Rest()), prefix, val, Rest())
    {
      val := prefix;
      while last.Ch?
        invariant Valid() && prefix <= val && val + Rest() == prefix + old(Rest()) && |Rest()| <= |old(Rest())|
        invariant forall i :: |prefix| <= i < |val| ==> val[i] != '\n'
        decreases |Rest()|
      {
        if last == Ch('\n') {
          val := ConsumeNext(val);
          return;
        }
        val := ConsumeNext(val);
      }
    }

    method ScanCommentType2() returns (typ: TokenType, val: string)
      requires Valid()
      modifies this`off, this`last, this`position
      ensures Valid() && |Rest()| <= |old(Rest())|
      ensures BlockRead(old(Rest()), typ, val, Rest())
    {
      val := "/*";
      while true
        invariant Valid() && "/*" <= val && val + Rest() == "/*" + old(Rest()) && |Rest()| <= |old(Rest())|
        invariant Open(val) && (|val| > 2 && val[|val| - 1] == '*' ==> last != Ch('/'))
        decreases |Rest()|
      {
        if last == Ch('*') {
          OpenMore(val, '*');
          val := ConsumeNext(val);
          if last == Ch('/') {
            OpenMore(val, '/');
            val := ConsumeNext(val);
            return COMMENT, val;
          }
          continue;
        }
        if last.EOF? {
          return LEX_ERROR, val;
        }
        OpenMore(val, last.c);
        val := ConsumeNext(val);
      }
    }

    /** A word, or a hexadecimal literal. Looking past an `x` is undone by stepping the stream back;
        at end of input that step returns to the `x` itself, which is then read twice. */
    method ScanWord() returns (typ: TokenType, val: string)
      requires Valid() && IsLetter(last)
      modifies this`off, this`last, this`position
      ensures Valid() && typ in {ID, KEYWORD, STRING, LEX_ERROR} && |Rest()| < |old(Rest())|
      ensures if StartsHex(old(Rest())) then HexRead(old(Rest())[2..], typ, val, Rest())
              else WordRead(old(Rest()), typ, val, Rest())
      ensures Told(keywords, old(Rest()), typ, val)
    {
      ghost var rest := Rest();
      if last == Ch('x') {
        Next();
        if last == Ch('\'') {
          assert rest[1] == Rest()[0] && rest[2..] == Rest()[1..];
          typ, val := ScanHexValue();
          return;
        }
        UnReadByte();
        last := Ch('x');
        assert Rest() == Reread(rest);
      }
      assert WordLen("xx") == 2 by { assert WordLen("xx"[1..]) == 1; }
      typ, val := ScanIdentifier();
    }

    /** `<`, `>` and `!`. */
    method ScanComparison(ch: char) returns (typ: TokenType, val: string)
      requires Valid() && (ch == '<' || ch == '>' || ch == '!')
      modifies this`off, this`last, this`position
      ensures Valid() && |Rest()| <= |old(Rest())|
      ensures ComparisonRead(ch, old(Rest()), typ, val, Rest())
    {
      ghost var r := Rest();
      typ, val := PUNCT(ch), "";
      match ch
      case '<' =>
        if last == Ch('>') {
          Next();
          typ := NE;
        } else if last == Ch('=') {
          Next();
          typ := LE;
          if last == Ch('>') {
            Next();
            assert r[1..][1..] == r[2..];
            typ := NULL_SAFE_EQUAL;
          }
        }
      case '>' =>
        if last == Ch('=') {
          Next();
          typ := GE;
        }
      case _ =>
        if last == Ch('=') {
          Next();
          typ := NE;
        } else {
          typ, val := LEX_ERROR, "!";
        }
    }

    /** `/` and `-`, and the comments they open. */
    method ScanDash(ch: char) returns (typ: TokenType, val: string)
      requires Valid() && (ch == '/' || ch == '-')
      modifies this`off, this`last, this`position
      ensures Valid() && |Rest()| <= |old(Rest())| && !typ.END?
      ensures DashRead(ch, old(Rest()), typ, val, Rest())
    {
      typ, val := PUNCT(ch), "";
      if last == Ch(ch) {
        Next();
        val := ScanCommentType1([ch, ch]);
        typ := COMMENT;
      } else if ch == '/' && last == Ch('*') {
        Next();
        typ, val := ScanCommentType2();
      }
    }

    /** The tokens that start with none of a letter, a digit and a colon; `ch` was just consumed. */
    method ScanOperator(ch: char) returns (typ: TokenType, val: string)
      requires Valid()
      modifies this`off, this`last, this`position, this`posVarIndex
      ensures Valid() && !typ.END? && |Rest()| <= |old(Rest())|
      ensures OperatorRead(ch, old(Rest()), typ, val, Rest())
      ensures posVarIndex == old(posVarIndex) + if ch == '?' then 1 else 0
      ensures ch == '?' ==> val == ":v" + FormatUint(posVarIndex)
    {
      typ, val := PUNCT(ch), "";
      match ch
      case '=' | ',' | ';' | '(' | ')' | '+' | '*' | '%' | '&' | '|' | '^' | '~' =>
      case '?' =>
        posVarIndex := posVarIndex + 1;
        typ, val := VALUE_ARG, ":v" + FormatUint(posVarIndex);
      case '.' =>
        if IsDigitLook(last) { typ, val := ScanNumber(true); }
      case '/' | '-' => typ, val := ScanDash(ch);
      case '<' | '>' | '!' => typ, val := ScanComparison(ch);
      case '\'' | '"' => typ, val := ScanString(ch);
      case '`' => typ, val := ScanLiteralIdentifier();
      case _ => typ, val := LEX_ERROR, [ch];
    }

    /** Every token but the end of input uses up some of the text it starts, and is read as its first
        character says; only an `x` that ends the input reads as `xx`. */
    method Scan() returns (typ: TokenType, val: string)
      requires Valid()
      modifies this`off, this`last, this`position, this`posVarIndex
      ensures Valid()
      ensures if forceEOF then typ.END? else LexRead(keywords, old(Rest()), typ, val, Rest())
      ensures typ.END? || |Rest()| < |TokenStart(old(Rest()))|
      ensures |Rest()| <= |old(Rest())|
    {
      if forceEOF {
        return END, "";
      }
      if last == Ch('\0') {
        Next();
      }
      SkipBlank();
      assert Rest() == TokenStart(old(Rest()));
      typ, val := ScanHere();
    }

    /** The token that begins at the current character. */
    method ScanHere() returns (typ: TokenType, val: string)
      requires Valid()
      modifies this`off, this`last, this`position, this`posVarIndex
      ensures Valid() && |Rest()| <= |old(Rest())|
      ensures typ.END? <==> old(Rest()) == ""
      ensures typ.END? || |Rest()| < |old(Rest())|
      ensures old(Rest()) != "" ==> TokenRead(old(Rest()), typ, val, Rest())
      ensures Told(keywords, old(Rest()), typ, val)
    {
      var ch := last;
      if IsLetter(ch) {
        typ, val := ScanWord();
      } else if IsDigitLook(ch) {
        typ, val := ScanNumber(false);
      } else if ch == Ch(':') {
        typ, val := ScanBindVar();
      } else {
        Next();
        if ch.EOF? {
          return END, "";
        }
        typ, val := ScanOperator(ch.c);
      }
    }

    /** Skips comments. `at` are the texts that were pending before each scan: comments up to the last of
        them, where the token was read. */
    method Lex() returns (typ: TokenType, val: string, ghost at: seq<string>)
      requires Valid()
      modifies this`off, this`last, this`position, this`posVarIndex
      ensures Valid() && (typ.COMMENT? ==> allowComments)
      ensures typ.END? || |Rest()| < |TokenStart(old(Rest()))|
      ensures |Rest()| <= |old(Rest())|
      ensures Skipped(at, old(Rest())) && (!forceEOF ==> LexRead(keywords, at[|at| - 1], typ, val, Rest()))
    {
      at := [Rest()];
      typ, val := Scan();
      while typ.COMMENT? && !allowComments
        invariant Valid() && |Rest()| <= |old(Rest())| && (typ.END? || |Rest()| < |TokenStart(old(Rest()))|)
        invariant Skipped(at, old(Rest())) && (forceEOF ==> typ.END?) &&
                  (!forceEOF ==> LexRead(keywords, at[|at| - 1], typ, val, Rest()))
        decreases |Rest()|, if typ.END? then 0 else 1
      {
        SkipMore(at, old(Rest()), val, Rest());
        at := at + [Rest()];
        typ, val := Scan();
      }
    }

    /** All tokens up to the end, as a parser asks for them. */
    method Tokens() returns (tokens: seq<(TokenType, string)>)
      requires Valid()
      modifies this`off, this`last, this`position, this`posVarIndex
      ensures Valid() && |tokens| <= |TokenStart(old(Rest()))|
    {
      tokens := [];
      var typ, val;
      ghost var at;
      typ, val, at := Lex();
      while !typ.END?
        invariant Valid()
        invariant if typ.END? then |tokens| <= |TokenStart(old(Rest()))| else |tokens| + |Rest()| < |TokenStart(old(Rest()))|
        decreases |Rest()|, if typ.END? then 0 else 1
      {
        tokens := tokens + [(typ, val)];
        typ, val, at := Lex();
      }
    }
  }

  /** The tokens of a statement: never more than one per byte. */
  method TokensOf(sql: string, keywords: set<string>, allowComments: bool) returns (tokens: seq<(TokenType, string)>)
    ensures |tokens| <= |sql|
  {
    var t := new Tokenizer(sql, keywords, allowComments);
    assert t.Rest()[1..] == sql;
    tokens := t.Tokens();
  }

  /** Scanning an encoded literal through the tokenizer: the token is the string, and the scan stops
      just after the closing quote. */
  method ScanEncoded(s: string, after: string, keywords: set<string>) returns (typ: TokenType, val: string, t: Tokenizer)
    requires !(after != "" && after[0] == '\'')
    ensures typ.STRING? && val == s && t.Valid() && t.Rest() == after
  {
    var text := EncodeSql(s);
    t := new Tokenizer(text + after, keywords, false);
    AtQuote(s, after);
    LiteralRoundTripIff(s, after);
    typ, val := t.Scan();
  }

  lemma AtQuote(s: string, after: string)
    ensures var r := TokenStart("\0" + (Quoted(s) + after));
            r != "" && r[0] == '\'' && r[1..] == Escaped(s) + "'" + after
  {
    var text := Quoted(s) + after;
    assert ("\0" + text)[1..] == text;
    assert text[1..] == Escaped(s) + "'" + after;
  }
}
