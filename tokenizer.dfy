/**
  The lexer of src/tokenizer.rs. `tokenize` walks the input left to right,
  peeking at one character and handing the rest of the scan to a sub-lexer:
  symbols to `SymbolLexer`, digits to `NumberLexer`, lowercase letters to
  `NameLexer`; a space is skipped and any other character is an error.

  The shared peekable iterator is modelled by the input `s` and the index
  `pos` of the next unread character: each sub-lexer takes the index where it
  starts and returns the index where it stopped.

  A number token keeps its lexeme (`Const("1.5")`): the conversion to `f32`
  done by `buffer.parse().unwrap()` is not part of this model.

  `LexFrom` is the specification: the result of lexing `s` from index `i`,
  defined by recursion on the characters left. `Tokenize` is proved to
  compute `LexFrom(s, 0)`, and the lemmas below state what it means.
*/
module Tokenizer {

  import opened Wrappers
  import opened FlatTokens

  datatype TokenizerError = EmptyToken | IncorrectCharacter(c: string)

  /** The `Display` text of an error. */
  function Message(e: TokenizerError): (m: string)
    ensures |m| > 18 && m[..18] == "TokenizerError -> "
    ensures e.IncorrectCharacter? ==> |m| > |e.c| && m[|m| - |e.c|..] == e.c
  {
    "TokenizerError -> " + match e
      case EmptyToken => "Empty token"
      case IncorrectCharacter(c) => "Incorrect character: " + c
  }

  /** A lexed token: a number carries its digit lexeme. */
  type Lexed = Token<string>

  predicate IsSymbol(c: char) {
    c == '+' || c == '-' || c == '*' || c == '/' || c == '^' || c == '(' || c == ')'
  }

  predicate IsDigit(c: char) {
    '0' <= c <= '9'
  }

  predicate IsLetter(c: char) {
    'a' <= c <= 'z'
  }

  /** The fixed token of each symbol; `-` is always subtraction. */
  function SymbolToken(c: char): Lexed
    requires IsSymbol(c)
  {
    match c
    case '+' => Add
    case '-' => Sub
    case '*' => Mul
    case '/' => Div
    case '(' => LBracket
    case ')' => RBracket
    case '^' => Pow
  }

  // ---------------------------------------------------------------------------
  // Extent of the number and name lexemes
  // ---------------------------------------------------------------------------

  /** Where a number that has reached index `i` stops: digits are taken, the
      first '.' is taken, anything else (including a second '.') ends it. */
  function NumberEnd(s: string, i: nat, seenDot: bool): (j: nat)
    requires i <= |s|
    ensures i <= j <= |s|
    ensures i < |s| && IsDigit(s[i]) ==> i < j
    decreases |s| - i
  {
    if i == |s| then i
    else if IsDigit(s[i]) then NumberEnd(s, i + 1, seenDot)
    else if s[i] == '.' && !seenDot then NumberEnd(s, i + 1, true)
    else i
  }

  /** Where a run of lowercase letters starting at `i` stops. */
  function NameEnd(s: string, i: nat): (j: nat)
    requires i <= |s|
    ensures i <= j <= |s|
    ensures i < |s| && IsLetter(s[i]) ==> i < j
    decreases |s| - i
  {
    if i < |s| && IsLetter(s[i]) then NameEnd(s, i + 1) else i
  }

  predicate IsNumberChar(c: char) {
    IsDigit(c) || c == '.'
  }

  /** `lexeme` has a digit, is made of digits and at most one '.': a string
      that `f32`'s parser accepts. */
  predicate IsNumberLexeme(lexeme: string) {
    (forall k :: 0 <= k < |lexeme| ==> IsNumberChar(lexeme[k]))
    && (forall k, m :: 0 <= k < m < |lexeme| ==> !(lexeme[k] == '.' && lexeme[m] == '.'))
    && (exists k :: 0 <= k < |lexeme| && IsDigit(lexeme[k]))
  }

  /** `NumberLexer` panics unless the buffer it collects parses: it must not
      be empty or the lone ".". That holds exactly when the scan starts at a
      digit, or at a '.' followed by a digit. */
  predicate NumberCanStart(s: string, pos: nat)
    requires pos < |s|
  {
    IsDigit(s[pos]) || (s[pos] == '.' && pos + 1 < |s| && IsDigit(s[pos + 1]))
  }

  /** The number lexeme is the maximal run of digits holding at most one '.';
      a second '.' is where it stops. */
  lemma {:induction false} NumberEndIsMaximalRun(s: string, i: nat, seenDot: bool)
    requires i <= |s|
    ensures var j := NumberEnd(s, i, seenDot);
      && (forall k :: i <= k < j ==> IsNumberChar(s[k]))
      && (forall k, m :: i <= k < m < j ==> !(s[k] == '.' && s[m] == '.'))
      && (seenDot ==> forall k :: i <= k < j ==> s[k] != '.')
      && (j < |s| ==> !IsDigit(s[j]) && (s[j] == '.' ==> seenDot || exists k :: i <= k < j && s[k] == '.'))
    decreases |s| - i
  {
    if i < |s| && IsDigit(s[i]) {
      NumberEndIsMaximalRun(s, i + 1, seenDot);
    } else if i < |s| && s[i] == '.' && !seenDot {
      NumberEndIsMaximalRun(s, i + 1, true);
      var j := NumberEnd(s, i, seenDot);
      if j < |s| && s[j] == '.' {
        assert s[i] == '.';
      }
    }
  }

  /** The name lexeme is the maximal, non-empty run of lowercase letters. */
  lemma {:induction false} NameEndIsMaximalRun(s: string, i: nat)
    requires i <= |s|
    ensures var j := NameEnd(s, i);
      && (forall k :: i <= k < j ==> IsLetter(s[k]))
      && (j < |s| ==> !IsLetter(s[j]))
    decreases |s| - i
  {
    if i < |s| && IsLetter(s[i]) {
      NameEndIsMaximalRun(s, i + 1);
    }
  }

  // ---------------------------------------------------------------------------
  // The sub-lexers
  // ---------------------------------------------------------------------------

  /** `SymbolLexer::read_token`: consumes exactly one character. */
  method ReadSymbol(s: string, pos: nat) returns (r: Result<Lexed, TokenizerError>, next: nat)
    requires pos <= |s|
    ensures pos == |s| ==> r == Err(EmptyToken) && next == pos
    ensures pos < |s| ==> next == pos + 1
    ensures pos < |s| && IsSymbol(s[pos]) ==> r == Ok(SymbolToken(s[pos]))
    ensures pos < |s| && !IsSymbol(s[pos]) ==> r == Err(IncorrectCharacter([s[pos]]))
  {
    if pos == |s| {
      return Err(EmptyToken), pos;
    }
    var c := s[pos];
    next := pos + 1;
    match c
    case '+' => r := Ok(Add);
    case '-' => r := Ok(Sub);
    case '*' => r := Ok(Mul);
    case '/' => r := Ok(Div);
    case '(' => r := Ok(LBracket);
    case ')' => r := Ok(RBracket);
    case '^' => r := Ok(Pow);
    case _ => r := Err(IncorrectCharacter([c]));
  }

  /** `NumberLexer::read_token`: takes the maximal run of digits with at most
      one '.', leaving the character that stopped it unread. */
  method ReadNumber(s: string, pos: nat) returns (r: Result<Lexed, TokenizerError>, next: nat)
    requires pos <= |s|
    requires pos < |s| ==> NumberCanStart(s, pos)
    ensures pos == |s| ==> r == Err(EmptyToken) && next == pos
    ensures pos < |s| ==> next == NumberEnd(s, pos, false) && r == Ok(Const(s[pos..next]))
    ensures pos < |s| ==> IsNumberLexeme(s[pos..next])
  {
    if pos == |s| {
      return Err(EmptyToken), pos;
    }
    var buffer := "";
    var hasDot := false;
    next := pos;
    while next < |s|
      invariant pos <= next <= |s|
      invariant buffer == s[pos..next]
      invariant hasDot <==> '.' in buffer
      invariant NumberEnd(s, pos, false) == NumberEnd(s, next, hasDot)
      decreases |s| - next
    {
      var c := s[next];
      if IsDigit(c) {
        buffer := buffer + [c];
        next := next + 1;
      } else if c == '.' {
        if hasDot {
          break;
        }
        buffer := buffer + [c];
        hasDot := true;
        next := next + 1;
      } else {
        break;
      }
    }
    r := Ok(Const(buffer));
    NumberLexemeParses(s, pos);
  }

  /** What `NumberLexer` collects from a valid start is a parseable lexeme. */
  lemma NumberLexemeParses(s: string, pos: nat)
    requires pos < |s| && NumberCanStart(s, pos)
    ensures IsNumberLexeme(s[pos..NumberEnd(s, pos, false)])
  {
    var j := NumberEnd(s, pos, false);
    NumberEndIsMaximalRun(s, pos, false);
    var lexeme := s[pos..j];
    if IsDigit(s[pos]) {
      assert IsDigit(lexeme[0]);
    } else {
      assert NumberEnd(s, pos, false) == NumberEnd(s, pos + 1, true);
      assert IsDigit(lexeme[1]);
    }
    forall k, m | 0 <= k < m < |lexeme|
      ensures !(lexeme[k] == '.' && lexeme[m] == '.')
    {
      assert lexeme[k] == s[pos + k] && lexeme[m] == s[pos + m];
    }
  }

  /** `NameLexer::read_token`: takes the maximal run of lowercase letters,
      leaving the character that stopped it unread. */
  method ReadName(s: string, pos: nat) returns (r: Result<Lexed, TokenizerError>, next: nat)
    requires pos <= |s|
    ensures pos == |s| ==> r == Err(EmptyToken) && next == pos
    ensures pos < |s| ==> next == NameEnd(s, pos) && r == Ok(Name(s[pos..next]))
  {
    if pos == |s| {
      return Err(EmptyToken), pos;
    }
    var buffer := "";
    next := pos;
    while next < |s| && IsLetter(s[next])
      invariant pos <= next <= |s|
      invariant buffer == s[pos..next]
      invariant NameEnd(s, pos) == NameEnd(s, next)
      decreases |s| - next
    {
      buffer := buffer + [s[next]];
      next := next + 1;
    }
    r := Ok(Name(buffer));
  }

  // ---------------------------------------------------------------------------
  // tokenize
  // ---------------------------------------------------------------------------

  /** `t` in front of a successful result; an error passes through. */
  function Cons(t: Lexed, r: Result<seq<Lexed>, TokenizerError>): Result<seq<Lexed>, TokenizerError> {
    match r
    case Ok(ts) => Ok([t] + ts)
    case Err(e) => Err(e)
  }

  /** `ts` in front of a successful result; an error passes through. */
  function Prepend(ts: seq<Lexed>, r: Result<seq<Lexed>, TokenizerError>): Result<seq<Lexed>, TokenizerError> {
    match r
    case Ok(us) => Ok(ts + us)
    case Err(e) => Err(e)
  }

  lemma PrependNil(r: Result<seq<Lexed>, TokenizerError>)
    ensures Prepend([], r) == r
  {
    if r.Ok? {
      assert [] + r.value == r.value;
    }
  }

  lemma PrependCons(ts: seq<Lexed>, t: Lexed, r: Result<seq<Lexed>, TokenizerError>)
    ensures Prepend(ts, Cons(t, r)) == Prepend(ts + [t], r)
  {
    if r.Ok? {
      assert ts + ([t] + r.value) == (ts + [t]) + r.value;
    }
  }

  /** The tokens of `s[i..]`, or the first error. */
  function LexFrom(s: string, i: nat): Result<seq<Lexed>, TokenizerError>
    requires i <= |s|
    decreases |s| - i
  {
    if i == |s| then Ok([])
    else
      var c := s[i];
      if IsSymbol(c) then Cons(SymbolToken(c), LexFrom(s, i + 1))
      else if IsDigit(c) then
        var j := NumberEnd(s, i, false);
        Cons(Const(s[i..j]), LexFrom(s, j))
      else if IsLetter(c) then
        var j := NameEnd(s, i);
        Cons(Name(s[i..j]), LexFrom(s, j))
      else if c == ' ' then LexFrom(s, i + 1)
      else Err(IncorrectCharacter([c]))
  }

  /** `tokenize`: every turn of the loop consumes at least one character. */
  method Tokenize(s: string) returns (r: Result<seq<Lexed>, TokenizerError>)
    ensures r == LexFrom(s, 0)
  {
    var pos := 0;
    var tokens: seq<Lexed> := [];
    PrependNil(LexFrom(s, 0));
    while pos < |s|
      invariant pos <= |s|
      invariant LexFrom(s, 0) == Prepend(tokens, LexFrom(s, pos))
      decreases |s| - pos
    {
      var c := s[pos];
      var t: Result<Lexed, TokenizerError>;
      var next: nat;
      if IsSymbol(c) {
        t, next := ReadSymbol(s, pos);
      } else if IsDigit(c) {
        t, next := ReadNumber(s, pos);
      } else if IsLetter(c) {
        t, next := ReadName(s, pos);
      } else if c == ' ' {
        pos := pos + 1;
        continue;
      } else {
        return Err(IncorrectCharacter([c]));
      }
      match t
      case Ok(tok) =>
        PrependCons(tokens, tok, LexFrom(s, next));
        tokens := tokens + [tok];
        pos := next;
      case Err(e) =>
        return Err(e);
    }
    assert tokens + [] == tokens;
    return Ok(tokens);
  }

  // ---------------------------------------------------------------------------
  // What tokenize promises
  // ---------------------------------------------------------------------------

  /** A sub-lexer is only called after peeking a character it accepts, so
      `EmptyToken` never escapes `tokenize`. */
  lemma {:induction false} NeverEmptyToken(s: string, i: nat)
    requires i <= |s|
    ensures LexFrom(s, i) != Err(EmptyToken)
    decreases |s| - i
  {
    if i < |s| {
      var c := s[i];
      if IsSymbol(c) {
        NeverEmptyToken(s, i + 1);
      } else if IsDigit(c) {
        NeverEmptyToken(s, NumberEnd(s, i, false));
      } else if IsLetter(c) {
        NeverEmptyToken(s, NameEnd(s, i));
      } else if c == ' ' {
        NeverEmptyToken(s, i + 1);
      }
    }
  }

  /** A character `tokenize` accepts where a token may begin. */
  predicate IsAccepted(c: char) {
    IsSymbol(c) || IsDigit(c) || IsLetter(c) || c == ' '
  }

  /** The only error is `IncorrectCharacter`, and it carries a character of
      the input that `tokenize` never accepts; no partial token list is kept. */
  lemma {:induction false} ErrorNamesARejectedCharacter(s: string, i: nat)
    requires i <= |s|
    ensures LexFrom(s, i).Err? ==>
      exists k :: i <= k < |s| && !IsAccepted(s[k]) && LexFrom(s, i).error == IncorrectCharacter([s[k]])
    decreases |s| - i
  {
    if i < |s| {
      var c := s[i];
      if IsSymbol(c) {
        ErrorNamesARejectedCharacter(s, i + 1);
      } else if IsDigit(c) {
        ErrorNamesARejectedCharacter(s, NumberEnd(s, i, false));
      } else if IsLetter(c) {
        ErrorNamesARejectedCharacter(s, NameEnd(s, i));
      } else if c == ' ' {
        ErrorNamesARejectedCharacter(s, i + 1);
      }
    }
  }

  /** Input made only of symbols, digits, lowercase letters and spaces always
      lexes. (A '.' is accepted only inside a number.) */
  lemma AcceptedInputLexes(s: string, i: nat)
    requires i <= |s|
    requires forall k :: i <= k < |s| ==> IsAccepted(s[k])
    ensures LexFrom(s, i).Ok?
  {
    ErrorNamesARejectedCharacter(s, i);
  }

  /** The converse: a character other than a symbol, digit, lowercase letter,
      space or '.' anywhere in the rest of the input makes the whole call
      fail, so no other whitespace is skipped. (A '.' inside a number is read
      as part of it; elsewhere it fails as well.) */
  lemma {:induction false} RejectedCharacterFails(s: string, i: nat, k: nat)
    requires i <= k < |s|
    requires !IsAccepted(s[k]) && s[k] != '.'
    ensures LexFrom(s, i).Err?
    decreases |s| - i
  {
    var c := s[i];
    if i < k {
      if IsSymbol(c) || c == ' ' {
        RejectedCharacterFails(s, i + 1, k);
      } else if IsDigit(c) {
        var j := NumberEnd(s, i, false);
        NumberEndIsMaximalRun(s, i, false);
        assert !IsNumberChar(s[k]);
        RejectedCharacterFails(s, j, k);
      } else if IsLetter(c) {
        var j := NameEnd(s, i);
        NameEndIsMaximalRun(s, i);
        assert !IsLetter(s[k]);
        RejectedCharacterFails(s, j, k);
      }
    }
  }

  /** The error names the first character the scan rejects: when every
      character before position `k` is accepted and `s[k]` is not, the
      result is `IncorrectCharacter` of `s[k]`, whatever follows it. */
  lemma {:induction false} FirstRejectedIsReported(s: string, i: nat, k: nat)
    requires i <= k < |s|
    requires forall m :: i <= m < k ==> IsAccepted(s[m])
    requires !IsAccepted(s[k]) && s[k] != '.'
    ensures LexFrom(s, i) == Err(IncorrectCharacter([s[k]]))
    decreases |s| - i
  {
    var c := s[i];
    if i < k {
      if IsSymbol(c) || c == ' ' {
        FirstRejectedIsReported(s, i + 1, k);
      } else if IsDigit(c) {
        var j := NumberEnd(s, i, false);
        NumberEndIsMaximalRun(s, i, false);
        assert !IsNumberChar(s[k]);
        FirstRejectedIsReported(s, j, k);
      } else {
        var j := NameEnd(s, i);
        NameEndIsMaximalRun(s, i);
        assert !IsLetter(s[k]);
        FirstRejectedIsReported(s, j, k);
      }
    }
  }

  /** A number scan that stops before `k` at the latest sees the same
      characters in `s[..k]` as in `s`. */
  lemma {:induction false} NumberEndPrefix(s: string, i: nat, k: nat, seenDot: bool)
    requires i <= k < |s| && !IsNumberChar(s[k])
    ensures NumberEnd(s[..k], i, seenDot) == NumberEnd(s, i, seenDot)
    decreases k - i
  {
    if i < k {
      assert s[..k][i] == s[i];
      if IsDigit(s[i]) {
        NumberEndPrefix(s, i + 1, k, seenDot);
      } else if s[i] == '.' && !seenDot {
        NumberEndPrefix(s, i + 1, k, true);
      }
    }
  }

  /** A name scan that stops before `k` at the latest sees the same
      characters in `s[..k]` as in `s`. */
  lemma {:induction false} NameEndPrefix(s: string, i: nat, k: nat)
    requires i <= k < |s| && !IsLetter(s[k])
    ensures NameEnd(s[..k], i) == NameEnd(s, i)
    decreases k - i
  {
    if i < k {
      assert s[..k][i] == s[i];
      if IsLetter(s[i]) {
        NameEndPrefix(s, i + 1, k);
      }
    }
  }

  /** The error names the first character the scan rejects, in general: when
      the input before `k` lexes on its own (numbers with their '.'
      included) and `s[k]` is rejected, the result is `IncorrectCharacter`
      of `s[k]`. */
  lemma {:induction false} RejectedAfterLexedPrefix(s: string, i: nat, k: nat)
    requires i <= k < |s|
    requires LexFrom(s[..k], i).Ok?
    requires !IsAccepted(s[k]) && s[k] != '.'
    ensures LexFrom(s, i) == Err(IncorrectCharacter([s[k]]))
    decreases k - i
  {
    if i < k {
      var p := s[..k];
      var c := s[i];
      assert p[i] == c;
      if IsSymbol(c) || c == ' ' {
        RejectedAfterLexedPrefix(s, i + 1, k);
      } else if IsDigit(c) {
        NumberEndPrefix(s, i, k, false);
        RejectedAfterLexedPrefix(s, NumberEnd(s, i, false), k);
      } else if IsLetter(c) {
        NameEndPrefix(s, i, k);
        RejectedAfterLexedPrefix(s, NameEnd(s, i), k);
      }
    }
  }

  /** A decimal number before the rejected character does not change which
      character is reported. */
  lemma DecimalThenRejected()
    ensures LexFrom("1.5#", 0) == Err(IncorrectCharacter("#"))
  {
    var s := "1.5#";
    var p := s[..3];
    assert p == "1.5";
    assert NumberEnd(p, 0, false) == 3;
    assert LexFrom(p, 3) == Ok([]);
    assert LexFrom(p, 0).Ok?;
    RejectedAfterLexedPrefix(s, 0, 3);
  }

  /** With two rejected characters, the first one is reported. */
  lemma FirstOfTwoRejected()
    ensures LexFrom("a#b$", 0) == Err(IncorrectCharacter("#"))
  {
    var s := "a#b$";
    assert IsAccepted(s[0]) && !IsAccepted(s[1]);
    FirstRejectedIsReported(s, 0, 1);
  }

  /** A tab is rejected: "1\t2" fails on it, although "1 2" lexes. */
  lemma TabIsRejected()
    ensures LexFrom("1\t2", 0) == Err(IncorrectCharacter("\t"))
    ensures LexFrom("1 2", 0) == Ok([Const("1"), Const("2")])
  {
    var tab, space := "1\t2", "1 2";
    assert NumberEnd(tab, 0, false) == 1;
    assert LexFrom(tab, 1) == Err(IncorrectCharacter("\t"));
    assert NumberEnd(space, 0, false) == 1;
    assert NumberEnd(space, 2, false) == 3;
    assert space[2..3] == "2" && space[0..1] == "1";
    assert LexFrom(space, 3) == Ok([]);
    var two: seq<Lexed> := [Const("2")];
    assert two + [] == two;
    assert LexFrom(space, 2) == Ok(two);
    assert LexFrom(space, 1) == Ok(two);
    assert [Const("1")] + two == [Const("1"), Const("2")];
  }

  /** The text a token was read from. */
  function Lexeme(t: Lexed): string {
    match t
    case Const(lexeme) => lexeme
    case Name(name) => name
    case Add => "+"
    case Sub => "-"
    case Mul => "*"
    case Div => "/"
    case Pow => "^"
    case LBracket => "("
    case RBracket => ")"
  }

  function Lexemes(ts: seq<Lexed>): string {
    if ts == [] then "" else Lexeme(ts[0]) + Lexemes(ts[1..])
  }

  function RemoveSpaces(s: string): string {
    if s == [] then "" else (if s[0] == ' ' then "" else [s[0]]) + RemoveSpaces(s[1..])
  }

  lemma {:induction false} RemoveSpacesAppend(a: string, b: string)
    ensures RemoveSpaces(a + b) == RemoveSpaces(a) + RemoveSpaces(b)
  {
    if a == [] {
      assert a + b == b;
    } else {
      assert (a + b)[0] == a[0];
      assert (a + b)[1..] == a[1..] + b;
      RemoveSpacesAppend(a[1..], b);
    }
  }

  lemma {:induction false} RemoveSpacesKeepsSpaceFree(a: string)
    requires forall k :: 0 <= k < |a| ==> a[k] != ' '
    ensures RemoveSpaces(a) == a
  {
    if a != [] {
      RemoveSpacesKeepsSpaceFree(a[1..]);
    }
  }

  /** Lexing loses nothing but spaces: the lexemes of the tokens, in order,
      spell the input with its spaces removed. */
  lemma {:induction false} LexemesSpellInput(s: string, i: nat)
    requires i <= |s|
    ensures LexFrom(s, i).Ok? ==> Lexemes(LexFrom(s, i).value) == RemoveSpaces(s[i..])
    decreases |s| - i
  {
    if i < |s| && LexFrom(s, i).Ok? {
      var c := s[i];
      var j := if IsSymbol(c) || c == ' ' then i + 1
               else if IsDigit(c) then NumberEnd(s, i, false)
               else NameEnd(s, i);
      var rest := LexFrom(s, j);
      LexemesSpellInput(s, j);
      assert RemoveSpaces(s[i..]) == RemoveSpaces(s[i..j]) + RemoveSpaces(s[j..]) by {
        assert s[i..] == s[i..j] + s[j..];
        RemoveSpacesAppend(s[i..j], s[j..]);
      }
      if c == ' ' {
        assert RemoveSpaces(s[i..j]) == "" by {
          assert s[i..j] == [' '];
        }
        assert LexFrom(s, i) == rest;
      } else {
        var t: Lexed := if IsSymbol(c) then SymbolToken(c)
                        else if IsDigit(c) then Const(s[i..j])
                        else Name(s[i..j]);
        assert LexFrom(s, i) == Cons(t, rest);
        if IsSymbol(c) {
          SymbolSpells(s, i);
        } else {
          RunSpells(s, i, j);
        }
        var ts := rest.value;
        assert ([t] + ts)[0] == t && ([t] + ts)[1..] == ts;
      }
    }
  }

  /** A symbol token is spelled by the one character it consumed. */
  lemma SymbolSpells(s: string, i: nat)
    requires i < |s| && IsSymbol(s[i])
    ensures RemoveSpaces(s[i..i + 1]) == Lexeme(SymbolToken(s[i]))
  {
    var c := s[i];
    assert s[i..i + 1] == [c];
    assert [c][1..] == [];
  }

  /** A number or a name is spelled by the characters it consumed, which
      hold no space. */
  lemma RunSpells(s: string, i: nat, j: nat)
    requires i < |s| && (IsDigit(s[i]) || IsLetter(s[i]))
    requires j == if IsDigit(s[i]) then NumberEnd(s, i, false) else NameEnd(s, i)
    ensures i <= j <= |s|
    ensures RemoveSpaces(s[i..j]) == s[i..j]
  {
    if IsDigit(s[i]) {
      NumberEndIsMaximalRun(s, i, false);
    } else {
      NameEndIsMaximalRun(s, i);
    }
    RemoveSpacesKeepsSpaceFree(s[i..j]);
  }

  /** `"1.2.3"` lexes `1.2`, then stops at the second '.', which is rejected. */
  lemma SecondDotEndsNumber()
    ensures NumberEnd("1.2.3", 0, false) == 3
    ensures LexFrom("1.2.3", 0) == Err(IncorrectCharacter("."))
  {
    assert NumberEnd("1.2.3", 0, false) == 3;
  }

  /** Every '-' becomes `Sub`; there is no unary minus at this stage. */
  lemma {:induction false} MinusIsAlwaysSub(s: string, i: nat)
    requires i < |s| && s[i] == '-'
    ensures LexFrom(s, i).Ok? ==> LexFrom(s, i).value[0] == Sub
  {
  }
}
