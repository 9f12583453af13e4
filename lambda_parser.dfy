// The parser of lambda-main/parser.c: the stack parser of parser-main with
// the nesting depth checked. A close token that would take the depth below
// zero, and a non-zero depth at the end, are syntax errors; otherwise the
// stack of completed forms is reversed in place so that the forms come out
// in source order.

module LambdaParser {
  import opened Values
  import P = Parser

  /** syntaxError: which of the two messages a bad depth produces. */
  function SyntaxError(depth: int): (e: Error)
    ensures e == TooManyClose <==> depth < 0
    ensures e == TooFewClose <==> depth >= 0
  {
    if depth < 0 then TooManyClose else TooFewClose
  }

  /**
   * addToParseTree on a stack of values: a close token that closes more
   * lists than were opened is an error; every other token is the unchecked
   * parser's step.
   */
  function CheckedStep(st: seq<Value>, depth: int, token: Value): (r: Result<(seq<Value>, int)>)
    requires token.Close? && depth - 1 >= 0 ==> Open in st
    ensures r.Fail? <==> token.Close? && depth < 1
    ensures r.Fail? ==> r.error == TooManyClose
    ensures r.Ok? ==> r.value == P.Step(st, depth, token)
  {
    if token.Close? && depth - 1 < 0 then Fail(SyntaxError(depth - 1))
    else Ok(P.Step(st, depth, token))
  }

  /**
   * Every token in turn. While the depth counts the OPEN markers on the
   * stack the run fails exactly when some prefix of the tokens closes more
   * lists than it opens, and otherwise agrees with the unchecked parser.
   */
  function CheckedRun(st: seq<Value>, depth: int, tokens: seq<Value>): (r: Result<(seq<Value>, int)>)
    requires P.OpenCount(st) == depth
    ensures r.Ok? <==> P.NeverUnderflows(depth, tokens)
    ensures r.Fail? ==> r.error == TooManyClose
    ensures r.Ok? ==> r.value == P.Run(st, depth, tokens)
    decreases tokens
  {
    if tokens == [] then Ok((st, depth))
    else
      P.OpenCountMeansOpen(st);
      var next :- CheckedStep(st, depth, tokens[0]);
      CheckedRun(next.0, next.1, tokens[1..])
  }

  /**
   * parse: the checked run from an empty stack, then the final depth check,
   * then the stack reversed. The source takes the cdr of the final stack
   * before reversing it, so it needs at least one token.
   */
  function ParseResult(tokens: seq<Value>): (r: Result<Value>)
    requires tokens != []
  {
    var (st, depth) :- CheckedRun([], 0, tokens);
    if depth != 0 then Fail(SyntaxError(depth)) else Ok(ReverseList(FromSeq(st)))
  }

  /**
   * The three outcomes of parse: too many close parentheses exactly when a
   * prefix of the tokens closes more than it opens; otherwise too few
   * exactly when the tokens open more than they close; otherwise the
   * completed forms in source order.
   */
  lemma ParseOutcomes(tokens: seq<Value>)
    requires tokens != []
    ensures ParseResult(tokens) == Fail(TooManyClose) <==> !P.NeverUnderflows(0, tokens)
    ensures ParseResult(tokens) == Fail(TooFewClose) <==>
      P.NeverUnderflows(0, tokens) && P.DepthChange(tokens) > 0
    ensures ParseResult(tokens).Ok? <==>
      P.NeverUnderflows(0, tokens) && P.DepthChange(tokens) == 0
    ensures ParseResult(tokens).Ok? ==>
      var st := P.Run([], 0, tokens).0;
      IsList(ParseResult(tokens).value) && Elems(ParseResult(tokens).value) == Reversed(st)
  {
    var r := CheckedRun([], 0, tokens);
    if r.Ok? {
      assert P.OpenCount(r.value.0) == r.value.1;
    }
  }

  /** The tokens of one or more parse trees parse back to exactly those trees, in order. */
  lemma {:induction false} ParseRoundTrip(forms: seq<Value>)
    requires forms != [] && forall f | f in forms :: P.IsDatum(f)
    ensures P.FlattenAll(forms) != []
    ensures ParseResult(P.FlattenAll(forms)) == Ok(FromSeq(forms))
  {
    P.ParseReversesForms(forms);
    var tokens := P.FlattenAll(forms);
    assert tokens == P.Flatten(forms[0]) + P.FlattenAll(forms[1..]);
    assert P.Flatten(forms[0]) != [];
    P.DepthChangeAppend(P.Flatten(forms[0]), P.FlattenAll(forms[1..]));
    ReversedTwice(forms);
    FromSeqElems(ParseResult(tokens).value);
  }

  // ---------------------------------------------------------------------
  // The imperative parser.

  /** addToParseTree: the depth check, then the unchecked parser's step. */
  method AddToParseTree(tree: Value, depth: int, token: Value) returns (r: Result<(Value, int)>)
    requires IsList(tree)
    requires token.Close? && depth - 1 >= 0 ==> Open in Elems(tree)
    ensures r.Fail? <==> CheckedStep(Elems(tree), depth, token).Fail?
    ensures r.Fail? ==> r.error == TooManyClose
    ensures r.Ok? ==> (IsList(r.value.0) &&
      (Elems(r.value.0), r.value.1) == CheckedStep(Elems(tree), depth, token).value)
  {
    if token.Close? && depth - 1 < 0 {
      return Fail(SyntaxError(depth - 1));
    }
    var tree', depth' := P.AddToParseTree(tree, depth, token);
    return Ok((tree', depth'));
  }

  /** parse: the token loop, the final depth check and the in-place reversal. */
  method Parse(tokens: Value) returns (r: Result<Value>)
    requires IsList(tokens) && Elems(tokens) != []
    ensures r == ParseResult(Elems(tokens))
  {
    var tree := Null;
    var depth := 0;
    var current := tokens;
    ghost var started := false;
    while !current.Null?
      invariant IsList(current) && IsList(tree)
      invariant P.OpenCount(Elems(tree)) == depth
      invariant CheckedRun([], 0, Elems(tokens)) == CheckedRun(Elems(tree), depth, Elems(current))
      invariant started ==> |Elems(tree)| > 0
      invariant !started ==> current == tokens
      decreases current
    {
      P.OpenCountMeansOpen(Elems(tree));
      var step := AddToParseTree(tree, depth, current.car);
      if step.Fail? {
        return Fail(step.error);
      }
      tree, depth := step.value.0, step.value.1;
      current := current.cdr;
      started := true;
    }
    if depth != 0 {
      return Fail(SyntaxError(depth));
    }
    FromSeqElems(tree);
    tree := ReverseInPlace(tree);
    return Ok(tree);
  }
}
