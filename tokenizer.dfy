// The hand-written lexer of tokenizer-main/tokenizer.c. Standard input is
// the whole input text and a cursor into it: fgetc reads the character under
// the cursor and advances it (at the end of the text it reads EOF and stays),
// and ungetc moves the cursor back one. The lexer reads a character,
// dispatches on it, conses the token it makes onto an accumulator and
// finally reverses the accumulator.
//
// Each reader is specified by a function from the unread input to the
// token and the input left unread; the methods walk the stream and are
// proved to agree with those functions.

module Tokenizer {
  import opened Values

  // ---------------------------------------------------------------------
  // Character classes.

  predicate IsDigit(c: char) {
    '0' <= c <= '9'
  }

  /** The characters a symbol can start with. */
  predicate IsSymbolInitial(c: char) {
    'A' <= c <= 'Z' || 'a' <= c <= 'z' || c in "!$%&*/:<=>?~_^"
  }

  /** The characters a symbol can continue with. */
  predicate IsSymbolSubsequent(c: char) {
    IsSymbolInitial(c) || IsDigit(c) || c == '+' || c == '-' || c == '.'
  }

  /** The next read is EOF, a space or a newline: a delimiter that is consumed. */
  predicate AtDelimiter(input: seq<char>) {
    input == [] || input[0] == ' ' || input[0] == '\n'
  }

  /** The next read is a parenthesis: a delimiter that is pushed back. */
  predicate AtParen(input: seq<char>) {
    input != [] && (input[0] == '(' || input[0] == ')')
  }

  /** The input after one read; reading at EOF consumes nothing. */
  function Consume(input: seq<char>): seq<char> {
    if input == [] then [] else input[1..]
  }

  /** A reader's outcome paired with the input it leaves unread. */
  function WithRest<T>(r: Result<T>, rest: seq<char>): Result<(T, seq<char>)> {
    if r.Ok? then Ok((r.value, rest)) else Fail(r.error)
  }

  // ---------------------------------------------------------------------
  // Specifications of the readers.

  /** The length of the run of digits at the start of the input. */
  function DigitCount(input: seq<char>): (n: nat)
    ensures n <= |input|
  {
    if input != [] && IsDigit(input[0]) then 1 + DigitCount(input[1..]) else 0
  }

  /** The digit run is all digits and stops at the first character that is not one. */
  lemma {:induction false} DigitRun(input: seq<char>)
    ensures forall i | 0 <= i < DigitCount(input) :: IsDigit(input[i])
    ensures DigitCount(input) < |input| ==> !IsDigit(input[DigitCount(input)])
  {
    if input != [] && IsDigit(input[0]) {
      DigitRun(input[1..]);
      forall i | 1 <= i < DigitCount(input) ensures IsDigit(input[i]) {
        assert input[i] == input[1..][i - 1];
      }
    }
  }

  /** The length of the run of symbol characters at the start of the input. */
  function SubsequentCount(input: seq<char>): (n: nat)
    ensures n <= |input|
    ensures forall i | 0 <= i < n :: IsSymbolSubsequent(input[i])
    ensures n < |input| ==> !IsSymbolSubsequent(input[n])
  {
    if input != [] && IsSymbolSubsequent(input[0]) then 1 + SubsequentCount(input[1..]) else 0
  }

  /** The decimal value of a run of digits (what strtol computes on it). */
  function Dec(ds: seq<char>): int {
    DecPrefix(ds, |ds|)
  }

  /** The decimal value of the first k digits. */
  function DecPrefix(ds: seq<char>, k: nat): int
    requires k <= |ds|
  {
    if k == 0 then 0 else 10 * DecPrefix(ds, k - 1) + (ds[k - 1] as int - '0' as int)
  }

  /** The value of a prefix depends only on that prefix. */
  lemma {:induction false} DecPrefixSame(a: seq<char>, b: seq<char>, k: nat)
    requires k <= |a| && k <= |b| && a[..k] == b[..k]
    ensures DecPrefix(a, k) == DecPrefix(b, k)
  {
    if k > 0 {
      assert a[..k - 1] == a[..k][..k - 1] && b[..k - 1] == b[..k][..k - 1];
      assert a[k - 1] == a[..k][k - 1] && b[k - 1] == b[..k][k - 1];
      DecPrefixSame(a, b, k - 1);
    }
  }

  /** The value of the digits after a decimal point: 0.d1d2... */
  function FracValue(ds: seq<char>): real {
    if ds == [] then 0.0 else ((ds[0] as int - '0' as int) as real + FracValue(ds[1..])) / 10.0
  }

  /** The decimal value of whole.frac (what strtod computes, on reals). */
  function DecimalValue(negative: bool, whole: seq<char>, frac: seq<char>): real {
    var magnitude := Dec(whole) as real + FracValue(frac);
    if negative then -magnitude else magnitude
  }

  /**
   * A finished token is followed by a space, newline or EOF (consumed) or by
   * a parenthesis (left for the next read); anything else is the error.
   */
  function Terminated(token: Value, after: seq<char>, err: Error): (r: Result<(Value, seq<char>)>)
    ensures r.Ok? <==> AtDelimiter(after) || AtParen(after)
    ensures r.Fail? ==> r.error == err
    ensures r.Ok? ==> r.value.0 == token && |r.value.1| <= |after|
    ensures r.Ok? && AtParen(after) ==> r.value.1 == after
  {
    if AtDelimiter(after) then Ok((token, Consume(after)))
    else if AtParen(after) then Ok((token, after))
    else Fail(err)
  }

  /** The position of the first double quote. */
  function QuoteIndex(input: seq<char>): (k: nat)
    requires '"' in input
    ensures k < |input| && input[k] == '"' && '"' !in input[..k]
  {
    if input[0] == '"' then 0 else 1 + QuoteIndex(input[1..])
  }

  /**
   * processString, on the input after the opening quote: everything up to
   * the next quote, with both quotes kept in the token's text; EOF first
   * is an invalid string.
   */
  function ReadString(input: seq<char>): (r: Result<(Value, seq<char>)>)
    ensures r.Ok? <==> '"' in input
    ensures r.Fail? ==> r.error == InvalidString
    ensures r.Ok? ==> |r.value.1| < |input|
  {
    if '"' in input then
      var k := QuoteIndex(input);
      Ok((Str(['"'] + input[..k] + ['"']), input[k + 1..]))
    else Fail(InvalidString)
  }

  /**
   * A string token is the text up to the first quote, with the quotes kept,
   * and the input resumes right after the closing quote.
   */
  lemma ReadStringSplits(body: seq<char>, rest: seq<char>)
    requires '"' !in body
    ensures ReadString(body + ['"'] + rest) == Ok((Str(['"'] + body + ['"']), rest))
  {
    var input := body + ['"'] + rest;
    QuoteIndexAt(input, |body|);
    assert input[..|body|] == body;
    assert input[|body| + 1..] == rest;
  }

  /**
   * processNumber, on the input from its initial character (a digit, a sign
   * or a point): an optional sign, a run of digits, then either a
   * delimiter (an Integer), a point and a second run of digits followed by a
   * delimiter (a Double), or an error.
   */
  function ReadNumber(input: seq<char>): (r: Result<(Value, seq<char>)>)
    requires input != [] && (IsDigit(input[0]) || input[0] in "+-.")
    ensures r.Ok? ==> (r.value.0.Int? || r.value.0.Double?) && |r.value.1| < |input|
    ensures r.Fail? ==> r.error == InvalidNumber || r.error == InvalidDouble
  {
    var body := if input[0] == '+' || input[0] == '-' then input[1..] else input;
    ReadUnsigned(input[0] == '-', body)
  }

  /** The number after its sign: the digit run, then a delimiter or the fraction. */
  function ReadUnsigned(negative: bool, body: seq<char>): (r: Result<(Value, seq<char>)>)
    ensures r.Ok? ==> (r.value.0.Int? || r.value.0.Double?) && |r.value.1| < |body| + 1
    ensures r.Fail? ==> r.error == InvalidNumber || r.error == InvalidDouble
  {
    var n := DigitCount(body);
    ReadAfterDigits(negative, body[..n], body[n..])
  }

  /** What follows the digit run: a delimiter ends an Integer, a point starts the fraction. */
  function ReadAfterDigits(negative: bool, whole: seq<char>, after: seq<char>): (r: Result<(Value, seq<char>)>)
    ensures r.Ok? ==> (r.value.0.Int? || r.value.0.Double?) && |r.value.1| <= |after|
    ensures r.Fail? ==> r.error == InvalidNumber || r.error == InvalidDouble
  {
    if AtDelimiter(after) || AtParen(after) then
      Terminated(Int(if negative then -Dec(whole) else Dec(whole)), after, InvalidNumber)
    else if after[0] == '.' then ReadFraction(negative, whole, after[1..])
    else Fail(InvalidNumber)
  }

  /** The digits after the point, which must end at a delimiter. */
  function ReadFraction(negative: bool, whole: seq<char>, frac: seq<char>): (r: Result<(Value, seq<char>)>)
    ensures r.Ok? ==> r.value.0.Double? && |r.value.1| <= |frac|
    ensures r.Fail? ==> r.error == InvalidDouble
  {
    var m := DigitCount(frac);
    Terminated(Double(DecimalValue(negative, whole, frac[..m])), frac[m..], InvalidDouble)
  }

  /**
   * processSymbol, on the input from its initial character: that
   * character and the run of symbol characters after it, which must end
   * at a delimiter.
   */
  function ReadSymbol(input: seq<char>): (r: Result<(Value, seq<char>)>)
    requires input != []
    ensures r.Ok? ==> r.value.0.Symbol? && |r.value.1| < |input|
    ensures r.Ok? ==> 1 <= |r.value.0.name| <= |input| && r.value.0.name == input[..|r.value.0.name|]
    ensures r.Ok? ==> forall i | 1 <= i < |r.value.0.name| :: IsSymbolSubsequent(r.value.0.name[i])
    ensures r.Fail? ==> r.error == InvalidSymbol
  {
    var n := SubsequentCount(input[1..]);
    Terminated(Symbol(input[..n + 1]), input[n + 1..], InvalidSymbol)
  }

  /** The input after the rest of a comment line (after the newline, or at EOF). */
  function AfterLine(input: seq<char>): (r: seq<char>)
    ensures |r| <= |input|
  {
    if input == [] then []
    else if input[0] == '\n' then input[1..]
    else AfterLine(input[1..])
  }

  /** A reader's token as the token of one lexer step. */
  function Emit(r: Result<(Value, seq<char>)>): Result<(Option<Value>, seq<char>)> {
    if r.Ok? then Ok((Some(r.value.0), r.value.1)) else Fail(r.error)
  }

  /**
   * A sign followed by a delimiter is a symbol; followed by a digit, or by
   * a point and a digit, it starts a number; anything else is an error.
   */
  function LexSign(input: seq<char>): (r: Result<(Option<Value>, seq<char>)>)
    requires input != [] && input[0] in "+-"
    ensures r.Ok? ==> |r.value.1| < |input|
  {
    var rest := input[1..];
    if AtDelimiter(rest) || AtParen(rest) then Emit(ReadSymbol(input))
    else if IsDigit(rest[0]) then Emit(ReadNumber(input))
    else if rest[0] == '.' && |rest| > 1 && IsDigit(rest[1]) then Emit(ReadNumber(input))
    else Fail(InvalidSymbol)
  }

  /** The character after '#': t or f, with no delimiter required after it. */
  function LexBool(rest: seq<char>): (r: Result<(Option<Value>, seq<char>)>)
    ensures r.Ok? ==> |r.value.1| < |rest|
  {
    if rest != [] && rest[0] == 't' then Ok((Some(Bool(true)), rest[1..]))
    else if rest != [] && rest[0] == 'f' then Ok((Some(Bool(false)), rest[1..]))
    else Fail(InvalidBoolean)
  }

  /**
   * One pass of the lexer's loop body, on the input from the character it
   * has just read: at most one token, and the input left unread.
   */
  function Lex(input: seq<char>): (r: Result<(Option<Value>, seq<char>)>)
    requires input != []
    ensures r.Ok? ==> |r.value.1| < |input|
    ensures r.Fail? ==> IsLexError(r.error)
  {
    var c := input[0];
    var rest := input[1..];
    if c == '(' then Ok((Some(Open), rest))
    else if c == ')' then Ok((Some(Close), rest))
    else if c == '"' then Emit(ReadString(rest))
    else if IsDigit(c) then Emit(ReadNumber(input))
    else if c == '+' || c == '-' then LexSign(input)
    else if c == '.' then
      if rest != [] && IsDigit(rest[0]) then Emit(ReadNumber(input)) else Fail(InvalidDouble)
    else if c == '#' then LexBool(rest)
    else if IsSymbolInitial(c) then Emit(ReadSymbol(input))
    else if c == ';' then Ok((None, AfterLine(rest)))
    else if c == ' ' || c == '\n' then Ok((None, rest))
    else Fail(BadSyntax)
  }

  /** The errors the tokenizer reports. */
  predicate IsLexError(e: Error) {
    e.InvalidString? || e.InvalidNumber? || e.InvalidDouble? || e.InvalidSymbol? ||
    e.InvalidBoolean? || e.BadSyntax?
  }

  /** tokenize's loop: the tokens of the whole input in the order they are read. */
  function Scan(input: seq<char>): Result<seq<Value>>
    decreases |input|
  {
    if input == [] then Ok([])
    else
      var step :- Lex(input);
      var more :- Scan(step.1);
      Ok(Listed(step.0) + more)
  }

  /** The token of a lexer step, as a sequence of zero or one tokens. */
  function Listed(token: Option<Value>): seq<Value> {
    if token.Some? then [token.value] else []
  }

  /** Tokens already made, in front of the outcome of the rest of the input. */
  function Then(done: seq<Value>, r: Result<seq<Value>>): Result<seq<Value>> {
    if r.Ok? then Ok(done + r.value) else r
  }

  /** The token list the lexer returns for an outcome of Scan. */
  function AsList(r: Result<seq<Value>>): Result<Value> {
    if r.Ok? then Ok(FromSeq(r.value)) else Fail(r.error)
  }

  // ---------------------------------------------------------------------
  // The readers as stream loops.

  lemma {:induction false} DigitCountAt(input: seq<char>, k: nat)
    requires k <= |input| && (forall i | 0 <= i < k :: IsDigit(input[i]))
    requires k < |input| ==> !IsDigit(input[k])
    ensures DigitCount(input) == k
  {
    if k > 0 {
      DigitCountAt(input[1..], k - 1);
    }
  }

  lemma {:induction false} SubsequentCountAt(input: seq<char>, k: nat)
    requires k <= |input| && (forall i | 0 <= i < k :: IsSymbolSubsequent(input[i]))
    requires k < |input| ==> !IsSymbolSubsequent(input[k])
    ensures SubsequentCount(input) == k
  {
    if k > 0 {
      SubsequentCountAt(input[1..], k - 1);
    }
  }

  lemma {:induction false} QuoteIndexAt(input: seq<char>, k: nat)
    requires k < |input| && input[k] == '"' && '"' !in input[..k]
    ensures QuoteIndex(input) == k
  {
    if k > 0 {
      assert input[0] in input[..k];
      assert input[1..][..k - 1] == input[1..k];
      assert forall x | x in input[1..k] :: x in input[..k];
      QuoteIndexAt(input[1..], k - 1);
    }
  }

  /**
   * processString, from the cursor after the opening quote: copies
   * characters into the token's text until the closing quote.
   */
  method ProcessString(s: seq<char>, start: nat) returns (r: Result<Value>, pos: nat)
    requires start <= |s|
    ensures pos <= |s|
    ensures WithRest(r, s[pos..]) == ReadString(s[start..])
  {
    var text := ['"'];
    pos := start;
    while pos < |s| && s[pos] != '"'
      invariant start <= pos <= |s|
      invariant text == ['"'] + s[start..pos]
      invariant forall i | start <= i < pos :: s[i] != '"'
    {
      assert s[start..pos + 1] == s[start..pos] + [s[pos]];
      text := text + [s[pos]];
      pos := pos + 1;
    }
    StringEndsAt(s, start, pos);
    if pos == |s| {
      return Fail(InvalidString), pos;
    }
    text := text + ['"'];
    pos := pos + 1;
    r := Ok(Str(text));
  }

  /** Where processString's loop stops decides ReadString's outcome. */
  lemma StringEndsAt(s: seq<char>, start: nat, pos: nat)
    requires start <= pos <= |s| && forall i | start <= i < pos :: s[i] != '"'
    ensures pos == |s| ==> ReadString(s[start..]) == Fail(InvalidString)
    ensures pos < |s| && s[pos] == '"' ==>
      ReadString(s[start..]) == Ok((Str(['"'] + s[start..pos] + ['"']), s[pos + 1..]))
  {
    var body := s[start..pos];
    assert forall i | 0 <= i < |body| :: body[i] != '"';
    assert '"' !in body;
    if pos == |s| {
      assert s[start..] == body;
    } else if s[pos] == '"' {
      assert s[start..] == body + ['"'] + s[pos + 1..];
      ReadStringSplits(body, s[pos + 1..]);
    }
  }

  /**
   * The digit loop of processNumber, from the cursor: the digits read and
   * the cursor at the first character that is not a digit.
   */
  method ReadDigits(s: seq<char>, start: nat) returns (digits: seq<char>, pos: nat)
    requires start <= |s|
    ensures start <= pos <= |s| && digits == s[start..pos]
    ensures pos - start == DigitCount(s[start..])
  {
    digits := [];
    pos := start;
    while pos < |s| && IsDigit(s[pos])
      invariant start <= pos <= |s| && digits == s[start..pos]
      invariant forall i | start <= i < pos :: IsDigit(s[i])
    {
      assert s[start..pos + 1] == s[start..pos] + [s[pos]];
      digits := digits + [s[pos]];
      pos := pos + 1;
    }
    DigitCountAt(s[start..], pos - start);
  }

  /**
   * The end of processNumber and processSymbol: a space, newline or EOF is
   * consumed, a parenthesis is read and pushed back.
   */
  method Finish(s: seq<char>, pos: nat, token: Value, err: Error) returns (r: Result<Value>, pos': nat)
    requires pos <= |s|
    ensures pos' <= |s|
    ensures WithRest(r, s[pos'..]) == Terminated(token, s[pos..], err)
  {
    if pos == |s| {
      r, pos' := Ok(token), pos;
    } else if s[pos] == ' ' || s[pos] == '\n' {
      r, pos' := Ok(token), pos + 1;
    } else if s[pos] == '(' || s[pos] == ')' {
      // read, then pushed back with ungetc
      r, pos' := Ok(token), pos;
    } else {
      r, pos' := Fail(err), pos;
    }
  }

  /**
   * processNumber, from the cursor at its initial character: the optional
   * sign, the digit loop, then the delimiter or the point and the second
   * digit loop. The value is computed from the digits read, as strtol and
   * strtod compute it from the collected text.
   */
  method ProcessNumber(s: seq<char>, start: nat) returns (r: Result<Value>, pos: nat)
    requires start < |s| && (IsDigit(s[start]) || s[start] in "+-.")
    ensures pos <= |s|
    ensures WithRest(r, s[pos..]) == ReadNumber(s[start..])
  {
    var negative := s[start] == '-';
    var b := if s[start] == '+' || s[start] == '-' then start + 1 else start;
    assert s[start..][1..] == s[start + 1..];
    r, pos := ProcessUnsigned(s, b, negative);
  }

  /** processNumber after the sign. */
  method ProcessUnsigned(s: seq<char>, b: nat, negative: bool) returns (r: Result<Value>, pos: nat)
    requires b <= |s|
    ensures pos <= |s|
    ensures WithRest(r, s[pos..]) == ReadUnsigned(negative, s[b..])
  {
    var whole, p := ReadDigits(s, b);
    assert s[b..][..p - b] == whole && s[b..][p - b..] == s[p..];
    r, pos := ProcessAfterDigits(s, p, negative, whole);
  }

  /** processNumber after the first digit loop: the delimiter, or the point and the fraction. */
  method ProcessAfterDigits(s: seq<char>, p: nat, negative: bool, whole: seq<char>) returns (r: Result<Value>, pos: nat)
    requires p <= |s|
    ensures pos <= |s|
    ensures WithRest(r, s[pos..]) == ReadAfterDigits(negative, whole, s[p..])
  {
    if p == |s| || s[p] == ' ' || s[p] == '\n' || s[p] == '(' || s[p] == ')' {
      r, pos := Finish(s, p, Int(if negative then -Dec(whole) else Dec(whole)), InvalidNumber);
    } else if s[p] == '.' {
      assert s[p..][1..] == s[p + 1..];
      r, pos := ProcessFraction(s, p + 1, negative, whole);
    } else {
      r, pos := Fail(InvalidNumber), p;
    }
  }

  lemma ReadUnsignedCases(negative: bool, body: seq<char>, whole: seq<char>, after: seq<char>)
    requires body == whole + after && |whole| == DigitCount(body)
    ensures AtDelimiter(after) || AtParen(after) ==>
      ReadUnsigned(negative, body) == Terminated(Int(if negative then -Dec(whole) else Dec(whole)), after, InvalidNumber)
    ensures !AtDelimiter(after) && !AtParen(after) && after[0] == '.' ==>
      ReadUnsigned(negative, body) == ReadFraction(negative, whole, after[1..])
    ensures !AtDelimiter(after) && !AtParen(after) && after[0] != '.' ==>
      ReadUnsigned(negative, body) == Fail(InvalidNumber)
  {
    assert body[..|whole|] == whole && body[|whole|..] == after;
  }

  /** processNumber's second digit loop, after the point. */
  method ProcessFraction(s: seq<char>, f: nat, negative: bool, whole: seq<char>) returns (r: Result<Value>, pos: nat)
    requires f <= |s|
    ensures pos <= |s|
    ensures WithRest(r, s[pos..]) == ReadFraction(negative, whole, s[f..])
  {
    var decimals, pos2 := ReadDigits(s, f);
    var frac := s[f..];
    assert frac[..pos2 - f] == decimals && frac[pos2 - f..] == s[pos2..];
    var token := Double(DecimalValue(negative, whole, decimals));
    assert ReadFraction(negative, whole, frac) == Terminated(token, s[pos2..], InvalidDouble);
    r, pos := Finish(s, pos2, token, InvalidDouble);
  }

  /** processSymbol: the initial character and the loop over symbol characters. */
  method ProcessSymbol(s: seq<char>, start: nat) returns (r: Result<Value>, pos: nat)
    requires start < |s|
    ensures pos <= |s|
    ensures WithRest(r, s[pos..]) == ReadSymbol(s[start..])
  {
    var name := [s[start]];
    pos := start + 1;
    while pos < |s| && IsSymbolSubsequent(s[pos])
      invariant start < pos <= |s| && name == s[start..pos]
      invariant forall i | start < i < pos :: IsSymbolSubsequent(s[i])
    {
      assert s[start..pos + 1] == s[start..pos] + [s[pos]];
      name := name + [s[pos]];
      pos := pos + 1;
    }
    SymbolEndsAt(s, start, pos);
    r, pos := Finish(s, pos, Symbol(name), InvalidSymbol);
  }

  /** Where processSymbol's loop stops decides ReadSymbol's outcome. */
  lemma SymbolEndsAt(s: seq<char>, start: nat, pos: nat)
    requires start < pos <= |s| && forall i | start < i < pos :: IsSymbolSubsequent(s[i])
    requires pos < |s| ==> !IsSymbolSubsequent(s[pos])
    ensures ReadSymbol(s[start..]) == Terminated(Symbol(s[start..pos]), s[pos..], InvalidSymbol)
  {
    var input := s[start..];
    assert input[1..] == s[start + 1..];
    SubsequentCountAt(input[1..], pos - start - 1);
    assert input[..pos - start] == s[start..pos];
    assert input[pos - start..] == s[pos..];
  }

  /** A reader's token as the outcome of a lexer step. */
  function AsStep(r: Result<Value>): Result<Option<Value>> {
    if r.Ok? then Ok(Some(r.value)) else Fail(r.error)
  }

  /** The sign case of the lexer's loop, with the sign under the cursor. */
  method ReadSign(s: seq<char>, start: nat) returns (r: Result<Option<Value>>, pos: nat)
    requires start < |s| && s[start] in "+-"
    ensures pos <= |s|
    ensures WithRest(r, s[pos..]) == LexSign(s[start..])
  {
    var p := start + 1;
    var rest := s[start..][1..];
    assert rest == s[p..];
    if p == |s| || s[p] == ' ' || s[p] == '\n' || s[p] == '(' || s[p] == ')' {
      // the character after the sign is read and pushed back
      assert AtDelimiter(rest) || AtParen(rest);
      var t;
      t, pos := ProcessSymbol(s, start);
      r := AsStep(t);
    } else if IsDigit(s[p]) {
      assert !AtDelimiter(rest) && !AtParen(rest) && IsDigit(rest[0]);
      var t;
      t, pos := ProcessNumber(s, start);
      r := AsStep(t);
    } else if s[p] == '.' && p + 1 < |s| && IsDigit(s[p + 1]) {
      // the point and the digit are both pushed back
      assert !AtDelimiter(rest) && !AtParen(rest) && !IsDigit(rest[0]);
      assert rest[0] == '.' && |rest| > 1 && IsDigit(rest[1]);
      var t;
      t, pos := ProcessNumber(s, start);
      r := AsStep(t);
    } else {
      assert !AtDelimiter(rest) && !AtParen(rest) && !IsDigit(rest[0]);
      assert !(rest[0] == '.' && |rest| > 1 && IsDigit(rest[1]));
      r, pos := Fail(InvalidSymbol), p;
    }
  }

  /** The boolean case of the lexer's loop, from the cursor after '#'. */
  method ReadBool(s: seq<char>, start: nat) returns (r: Result<Option<Value>>, pos: nat)
    requires start <= |s|
    ensures pos <= |s|
    ensures WithRest(r, s[pos..]) == LexBool(s[start..])
  {
    pos := start;
    if pos < |s| && s[pos] == 't' {
      r, pos := Ok(Some(Bool(true))), pos + 1;
    } else if pos < |s| && s[pos] == 'f' {
      r, pos := Ok(Some(Bool(false))), pos + 1;
    } else {
      r := Fail(InvalidBoolean);
    }
    assert pos > start ==> s[start..][1..] == s[pos..];
  }

  /** The comment case of the lexer's loop: reads up to and including the newline. */
  method SkipComment(s: seq<char>, start: nat) returns (pos: nat)
    requires start <= |s|
    ensures pos <= |s| && s[pos..] == AfterLine(s[start..])
  {
    pos := start;
    while pos < |s| && s[pos] != '\n'
      invariant start <= pos <= |s|
      invariant AfterLine(s[start..]) == AfterLine(s[pos..])
    {
      assert s[pos..][1..] == s[pos + 1..];
      pos := pos + 1;
    }
    if pos < |s| {
      assert s[pos..][1..] == s[pos + 1..];
      pos := pos + 1;
    }
  }

  /** The body of the lexer's loop, for the character under the cursor. */
  method ReadToken(s: seq<char>, start: nat) returns (r: Result<Option<Value>>, pos: nat)
    requires start < |s|
    ensures pos <= |s|
    ensures WithRest(r, s[pos..]) == Lex(s[start..])
  {
    var c := s[start];
    pos := start + 1;
    assert s[start..][1..] == s[pos..];
    if c == '(' {
      r := Ok(Some(Open));
    } else if c == ')' {
      r := Ok(Some(Close));
    } else if c == '"' {
      var t;
      t, pos := ProcessString(s, pos);
      r := AsStep(t);
    } else if IsDigit(c) {
      var t;
      t, pos := ProcessNumber(s, start);
      r := AsStep(t);
    } else if c == '+' || c == '-' {
      r, pos := ReadSign(s, start);
    } else if c == '.' {
      if pos < |s| && IsDigit(s[pos]) {
        var t;
        t, pos := ProcessNumber(s, start);
        r := AsStep(t);
      } else {
        r := Fail(InvalidDouble);
      }
    } else if c == '#' {
      r, pos := ReadBool(s, pos);
    } else if IsSymbolInitial(c) {
      var t;
      t, pos := ProcessSymbol(s, start);
      r := AsStep(t);
    } else if c == ';' {
      pos := SkipComment(s, pos);
      r := Ok(None);
    } else if c == ' ' || c == '\n' {
      r := Ok(None);
    } else {
      r := Fail(BadSyntax);
    }
  }

  /**
   * tokenize: reads characters until EOF, conses each token onto an
   * accumulator, and returns the accumulator reversed.
   */
  method Tokenize(s: seq<char>) returns (r: Result<Value>)
    ensures r == AsList(Scan(s))
  {
    var list := Null;
    var pos := 0;
    assert s[pos..] == s;
    ThenNothing(Scan(s));
    while pos < |s|
      invariant pos <= |s| && IsList(list)
      invariant Scan(s) == Then(Reversed(Elems(list)), Scan(s[pos..]))
      decreases |s| - pos
    {
      var token, next := ReadToken(s, pos);
      if token.Fail? {
        return Fail(token.error);
      }
      ThenThen(Reversed(Elems(list)), Listed(token.value), Scan(s[next..]));
      if token.value.Some? {
        ReversedCons(token.value.value, Elems(list));
        list := Cons(token.value.value, list);
      } else {
        assert Reversed(Elems(list)) + [] == Reversed(Elems(list));
      }
      pos := next;
    }
    r := Ok(ReverseList(list));
    FromSeqElems(r.value);
  }

  // ---------------------------------------------------------------------
  // One lexer step, by the character read.

  /** A parenthesis is a token on its own; nothing after it is read. */
  lemma LexParen(rest: seq<char>)
    ensures Lex(['('] + rest) == Ok((Some(Open), rest))
    ensures Lex([')'] + rest) == Ok((Some(Close), rest))
  {
    assert (['('] + rest)[1..] == rest;
    assert ([')'] + rest)[1..] == rest;
  }

  /**
   * A sign before a delimiter is the one-character symbol; before a digit,
   * or before a point and a digit, it starts a signed number; before
   * anything else it is an invalid symbol.
   */
  lemma LexSignCases(sign: char, rest: seq<char>)
    requires sign == '+' || sign == '-'
    ensures AtDelimiter(rest) ==> Lex([sign] + rest) == Ok((Some(Symbol([sign])), Consume(rest)))
    ensures AtParen(rest) ==> Lex([sign] + rest) == Ok((Some(Symbol([sign])), rest))
    ensures rest != [] && (IsDigit(rest[0]) || (rest[0] == '.' && |rest| > 1 && IsDigit(rest[1]))) ==>
      Lex([sign] + rest) == Emit(ReadUnsigned(sign == '-', rest))
    ensures (rest != [] && !AtDelimiter(rest) && !AtParen(rest) && !IsDigit(rest[0]) &&
             !(rest[0] == '.' && |rest| > 1 && IsDigit(rest[1]))) ==>
      Lex([sign] + rest) == Fail(InvalidSymbol)
  {
    var input := [sign] + rest;
    assert input[0] == sign && input[1..] == rest;
    LexIsSign(input);
    if AtDelimiter(rest) || AtParen(rest) {
      LoneSign(sign, rest);
    } else if IsDigit(rest[0]) || (rest[0] == '.' && |rest| > 1 && IsDigit(rest[1])) {
      assert LexSign(input) == Emit(ReadNumber(input));
    }
  }

  lemma LexIsSign(input: seq<char>)
    requires input != [] && (input[0] == '+' || input[0] == '-')
    ensures Lex(input) == LexSign(input)
  {
  }

  /** A sign followed by a delimiter is a symbol of its own. */
  lemma LoneSign(sign: char, rest: seq<char>)
    requires AtDelimiter(rest) || AtParen(rest)
    ensures ReadSymbol([sign] + rest) == Terminated(Symbol([sign]), rest, InvalidSymbol)
  {
    var input := [sign] + rest;
    assert input[1..] == rest && input[..1] == [sign];
    assert SubsequentCount(rest) == 0;
  }

  /** #t and #f are the Booleans; '#' followed by anything else is an error. */
  lemma LexHash(c: char, rest: seq<char>)
    ensures c == 't' ==> Lex(['#', c] + rest) == Ok((Some(Bool(true)), rest))
    ensures c == 'f' ==> Lex(['#', c] + rest) == Ok((Some(Bool(false)), rest))
    ensures c != 't' && c != 'f' ==> Lex(['#', c] + rest) == Fail(InvalidBoolean)
    ensures Lex(['#']) == Fail(InvalidBoolean)
  {
    var input := ['#', c] + rest;
    assert input[0] == '#' && input[1..] == [c] + rest && input[1..][1..] == rest;
  }

  /** The rest of a comment line is skipped up to and including its newline. */
  lemma {:induction false} AfterLineSkips(line: seq<char>, rest: seq<char>)
    requires '\n' !in line
    ensures AfterLine(line + ['\n'] + rest) == rest
    ensures AfterLine(line) == []
    decreases |line|
  {
    if line == [] {
      assert (line + ['\n'] + rest)[1..] == rest;
    } else {
      AfterLineSkips(line[1..], rest);
      assert (line + ['\n'] + rest)[1..] == line[1..] + ['\n'] + rest;
    }
  }

  /** A comment makes no token and ends after its line's newline, or at EOF. */
  lemma LexComment(line: seq<char>, rest: seq<char>)
    requires '\n' !in line
    ensures Lex([';'] + line + ['\n'] + rest) == Ok((None, rest))
    ensures Lex([';'] + line) == Ok((None, []))
  {
    var input := [';'] + line + ['\n'] + rest;
    assert Lex(input) == Ok((None, rest)) by {
      assert input[0] == ';' && input[1..] == line + ['\n'] + rest;
      AfterLineSkips(line, rest);
    }
    var last := [';'] + line;
    assert Lex(last) == Ok((None, [])) by {
      assert last[0] == ';' && last[1..] == line;
      AfterLineSkips(line, rest);
    }
  }

  /**
   * A space and a newline make no token; any other character that starts
   * no token, a tab for one, is bad syntax.
   */
  lemma LexBlank(input: seq<char>)
    requires input != []
    ensures input[0] == ' ' || input[0] == '\n' ==> Lex(input) == Ok((None, input[1..]))
    ensures input[0] == '\t' ==> Lex(input) == Fail(BadSyntax)
  {
    if input[0] == '\t' {
      assert !IsDigit('\t') && !IsSymbolInitial('\t');
    }
  }

  /**
   * A run of digits, a point and a second run of digits, ended by a
   * delimiter, is a Double with the decimal value of that text.
   */
  lemma ReadDecimal(negative: bool, whole: seq<char>, frac: seq<char>, after: seq<char>)
    requires forall i | 0 <= i < |whole| :: IsDigit(whole[i])
    requires forall i | 0 <= i < |frac| :: IsDigit(frac[i])
    requires after == [] || !IsDigit(after[0])
    ensures ReadUnsigned(negative, whole + ['.'] + frac + after) ==
      Terminated(Double(DecimalValue(negative, whole, frac)), after, InvalidDouble)
  {
    var point := ['.'] + (frac + after);
    assert whole + ['.'] + frac + after == whole + point;
    ReadUnsignedSplit(negative, whole, point);
    assert ReadAfterDigits(negative, whole, point) == ReadFraction(negative, whole, frac + after) by {
      assert point[0] == '.' && point[1..] == frac + after;
    }
    ReadFractionSplit(negative, whole, frac, after);
  }

  /** The digits after the point run up to the first non-digit. */
  lemma ReadFractionSplit(negative: bool, whole: seq<char>, frac: seq<char>, after: seq<char>)
    requires forall i | 0 <= i < |frac| :: IsDigit(frac[i])
    requires after == [] || !IsDigit(after[0])
    ensures ReadFraction(negative, whole, frac + after) ==
      Terminated(Double(DecimalValue(negative, whole, frac)), after, InvalidDouble)
  {
    SplitAt(frac, after);
    DigitCountAt(frac + after, |frac|);
  }

  // ---------------------------------------------------------------------
  // Printing tokens and reading them back.

  /** The character of a decimal digit. */
  function DigitChar(d: nat): (c: char)
    requires d < 10
    ensures IsDigit(c) && c as int - '0' as int == d
  {
    ('0' as int + d) as char
  }

  /** The decimal digits of a natural number, most significant first. */
  function NatDigits(n: nat): (ds: seq<char>)
    ensures |ds| >= 1 && forall i | 0 <= i < |ds| :: IsDigit(ds[i])
  {
    if n < 10 then [DigitChar(n)] else NatDigits(n / 10) + [DigitChar(n % 10)]
  }

  /** strtol gives back the number whose digits were printed. */
  lemma {:induction false} DecNatDigits(n: nat)
    ensures Dec(NatDigits(n)) == n
  {
    var ds := NatDigits(n);
    if n >= 10 {
      var front := NatDigits(n / 10);
      DecNatDigits(n / 10);
      assert ds[..|front|] == front[..|front|];
      DecPrefixSame(ds, front, |front|);
      assert ds == front + [DigitChar(n % 10)] && |ds| == |front| + 1;
      assert Dec(ds) == 10 * DecPrefix(ds, |front|) + (ds[|front|] as int - '0' as int);
      assert ds[|front|] as int - '0' as int == n % 10;
    } else {
      assert Dec(ds) == 10 * DecPrefix(ds, 0) + (ds[0] as int - '0' as int);
    }
  }

  /** The text of an integer: its digits, after a minus sign when negative. */
  function IntText(i: int): string {
    if i < 0 then ['-'] + NatDigits(-i) else NatDigits(i)
  }

  /** A symbol name the lexer reads back as one symbol. */
  predicate IsSymbolName(name: string) {
    name == "+" || name == "-" ||
    (|name| >= 1 && IsSymbolInitial(name[0]) && forall i | 1 <= i < |name| :: IsSymbolSubsequent(name[i]))
  }

  /** A string token's text: a quote, characters other than a quote, a quote. */
  predicate IsStringText(text: string) {
    |text| >= 2 && text[0] == '"' && text[|text| - 1] == '"' && '"' !in text[1..|text| - 1]
  }

  /** The tokens that have a text the lexer reads back (every kind except Double). */
  predicate Printable(t: Value) {
    match t
    case Open => true
    case Close => true
    case Int(_) => true
    case Bool(_) => true
    case Symbol(name) => IsSymbolName(name)
    case Str(text) => IsStringText(text)
    case _ => false
  }

  function Text(t: Value): string
    requires Printable(t)
  {
    match t
    case Open => "("
    case Close => ")"
    case Int(i) => IntText(i)
    case Bool(b) => if b then "#t" else "#f"
    case Symbol(name) => name
    case Str(text) => text
  }

  /** Tokens printed one after another, each followed by a space. */
  function Render(ts: seq<Value>): string
    requires forall t | t in ts :: Printable(t)
  {
    if ts == [] then [] else Text(ts[0]) + [' '] + Render(ts[1..])
  }

  /** Tokenizing fails only with one of the tokenizer's own errors. */
  lemma {:induction false} ScanErrors(input: seq<char>)
    ensures Scan(input).Fail? ==> IsLexError(Scan(input).error)
    decreases |input|
  {
    if input != [] && Lex(input).Ok? {
      ScanErrors(Lex(input).value.1);
    }
  }

  /** Scan takes one lexer step and goes on from where it stopped. */
  lemma ScanUnfold(input: seq<char>)
    requires input != []
    ensures Lex(input).Fail? ==> Scan(input) == Fail(Lex(input).error)
    ensures Lex(input).Ok? ==> Scan(input) == Then(Listed(Lex(input).value.0), Scan(Lex(input).value.1))
  {
  }

  lemma ScanSpace(rest: seq<char>)
    ensures Scan([' '] + rest) == Scan(rest)
  {
    var input := [' '] + rest;
    LexBlank(input);
    assert input[1..] == rest;
    ScanUnfold(input);
    ThenNothing(Scan(rest));
  }

  /** The digits of a number followed by a space read as that integer. */
  lemma UnsignedText(negative: bool, ds: seq<char>, after: seq<char>)
    requires |ds| >= 1 && forall i | 0 <= i < |ds| :: IsDigit(ds[i])
    requires after != [] && after[0] == ' '
    ensures ReadUnsigned(negative, ds + after) == Ok((Int(if negative then -Dec(ds) else Dec(ds)), after[1..]))
  {
    ReadUnsignedSplit(negative, ds, after);
    IntAtSpace(negative, ds, after);
  }

  /** Digits followed by a space end an Integer, and the space is consumed. */
  lemma IntAtSpace(negative: bool, ds: seq<char>, after: seq<char>)
    requires after != [] && after[0] == ' '
    ensures ReadAfterDigits(negative, ds, after) == Ok((Int(if negative then -Dec(ds) else Dec(ds)), after[1..]))
  {
    assert AtDelimiter(after);
  }

  /** A run of digits ended by a non-digit is read up to that character. */
  lemma ReadUnsignedSplit(negative: bool, whole: seq<char>, after: seq<char>)
    requires forall i | 0 <= i < |whole| :: IsDigit(whole[i])
    requires after == [] || !IsDigit(after[0])
    ensures ReadUnsigned(negative, whole + after) == ReadAfterDigits(negative, whole, after)
  {
    var body := whole + after;
    SplitAt(whole, after);
    DigitCountAt(body, |whole|);
  }

  /** A minus sign before digits is read as part of the number. */
  lemma LexNegative(ds: seq<char>, after: seq<char>)
    requires |ds| >= 1 && forall i | 0 <= i < |ds| :: IsDigit(ds[i])
    ensures Lex(['-'] + (ds + after)) == Emit(ReadUnsigned(true, ds + after))
  {
    var input := ['-'] + (ds + after);
    var rest := input[1..];
    assert rest == ds + after && rest[0] == ds[0];
    assert !AtDelimiter(rest) && !AtParen(rest) && IsDigit(rest[0]);
    assert Lex(input) == LexSign(input) by {
      assert input[0] == '-';
    }
    assert LexSign(input) == Emit(ReadNumber(input));
    assert ReadNumber(input) == ReadUnsigned(true, rest);
  }

  lemma LexDigits(ds: seq<char>, after: seq<char>)
    requires |ds| >= 1 && forall i | 0 <= i < |ds| :: IsDigit(ds[i])
    ensures Lex(ds + after) == Emit(ReadUnsigned(false, ds + after))
  {
    assert (ds + after)[0] == ds[0];
  }

  lemma LexNat(n: nat, after: seq<char>)
    requires after != [] && after[0] == ' '
    ensures Lex(NatDigits(n) + after) == Ok((Some(Int(n)), after[1..]))
  {
    DecNatDigits(n);
    UnsignedText(false, NatDigits(n), after);
    LexDigits(NatDigits(n), after);
  }

  lemma LexNegativeInt(i: int, after: seq<char>)
    requires i < 0 && after != [] && after[0] == ' '
    ensures Lex(['-'] + (NatDigits(-i) + after)) == Ok((Some(Int(i)), after[1..]))
  {
    DecNatDigits(-i);
    UnsignedText(true, NatDigits(-i), after);
    LexNegative(NatDigits(-i), after);
  }

  lemma LexInt(i: int, rest: seq<char>)
    ensures Lex(IntText(i) + ([' '] + rest)) == Ok((Some(Int(i)), rest))
  {
    var after := [' '] + rest;
    assert after[1..] == rest;
    if i < 0 {
      var input := ['-'] + (NatDigits(-i) + after);
      LexNegativeInt(i, after);
      assert Lex(input) == Ok((Some(Int(i)), rest));
      assert IntText(i) + after == input;
    } else {
      var input := NatDigits(i) + after;
      LexNat(i, after);
      assert Lex(input) == Ok((Some(Int(i)), rest));
      assert IntText(i) + after == input;
    }
  }

  lemma ScanInt(i: int, rest: seq<char>)
    ensures Scan(IntText(i) + [' '] + rest) == Then([Int(i)], Scan(rest))
  {
    LexInt(i, rest);
    AppendAssoc(IntText(i), [' '], rest);
    ScanUnfold(IntText(i) + ([' '] + rest));
  }

  lemma ReadSymbolText(name: string, after: seq<char>)
    requires |name| >= 1 && forall i | 1 <= i < |name| :: IsSymbolSubsequent(name[i])
    requires after != [] && after[0] == ' '
    ensures ReadSymbol(name + after) == Ok((Symbol(name), after[1..]))
  {
    var input := name + after;
    SplitAt(name, after);
    assert input[1..] == name[1..] + after;
    SplitAt(name[1..], after);
    SubsequentCountAt(input[1..], |name| - 1);
    assert Terminated(Symbol(name), after, InvalidSymbol) == Ok((Symbol(name), after[1..]));
  }

  lemma LexSymbol(name: string, after: seq<char>)
    requires IsSymbolName(name) && after != [] && after[0] == ' '
    ensures Lex(name + after) == Emit(ReadSymbol(name + after))
  {
    var input := name + after;
    assert input[0] == name[0];
    if name == "+" || name == "-" {
      assert input[1..] == after && AtDelimiter(after);
      assert Lex(input) == LexSign(input);
    } else {
      assert IsSymbolInitial(input[0]);
      assert !IsDigit(input[0]) && input[0] !in "()\"+-.#; \n";
    }
  }

  lemma ScanSymbol(name: string, rest: seq<char>)
    requires IsSymbolName(name)
    ensures Scan(name + [' '] + rest) == Then([Symbol(name)], Scan(rest))
  {
    var after := [' '] + rest;
    assert name + [' '] + rest == name + after;
    ReadSymbolText(name, after);
    LexSymbol(name, after);
    assert after[1..] == rest;
    ScanUnfold(name + after);
  }

  lemma ScanString(text: string, rest: seq<char>)
    requires IsStringText(text)
    ensures Scan(text + [' '] + rest) == Then([Str(text)], Scan(rest))
  {
    var input := text + [' '] + rest;
    var body := text[1..|text| - 1];
    assert text == ['"'] + body + ['"'];
    assert input[1..] == body + ['"'] + ([' '] + rest);
    ReadStringSplits(body, [' '] + rest);
    ScanUnfold(input);
    ScanSpace(rest);
  }

  /** Reading a printed token and its space gives the token, then whatever follows. */
  lemma ScanToken(t: Value, rest: seq<char>)
    requires Printable(t)
    ensures Scan(Text(t) + [' '] + rest) == Then([t], Scan(rest))
  {
    if t.Int? {
      ScanInt(t.i, rest);
    } else if t.Symbol? {
      ScanSymbol(t.name, rest);
    } else if t.Str? {
      ScanString(t.s, rest);
    } else {
      var input := Text(t) + [' '] + rest;
      var after := input[|Text(t)|..];
      assert after == [' '] + rest;
      if t.Bool? {
        assert input[1..][1..] == after;
      }
      assert Lex(input) == Ok((Some(t), after));
      ScanUnfold(input);
      ScanSpace(rest);
    }
  }

  /** Printed tokens, separated by spaces, are read back exactly. */
  lemma {:induction false} ScanRender(ts: seq<Value>)
    requires forall t | t in ts :: Printable(t)
    ensures Scan(Render(ts)) == Ok(ts)
  {
    if ts != [] {
      ScanRender(ts[1..]);
      ScanToken(ts[0], Render(ts[1..]));
      assert [ts[0]] + ts[1..] == ts;
    }
  }

  /** Tokenize on printed tokens returns them as a list, in order. */
  lemma TokenizeRender(ts: seq<Value>)
    requires forall t | t in ts :: Printable(t)
    ensures AsList(Scan(Render(ts))) == Ok(FromSeq(ts))
  {
    ScanRender(ts);
  }

  lemma ThenThen(a: seq<Value>, b: seq<Value>, r: Result<seq<Value>>)
    ensures Then(a, Then(b, r)) == Then(a + b, r)
  {
    if r.Ok? {
      assert a + (b + r.value) == (a + b) + r.value;
    }
  }

  lemma ThenNothing(r: Result<seq<Value>>)
    ensures Then([], r) == r
  {
    if r.Ok? {
      assert [] + r.value == r.value;
    }
  }
}
