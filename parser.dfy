// The stack-based parser of parser-main/parser.c. Tokens are pushed on a
// stack (a cons list whose head is the top); a close token pops everything
// above the nearest OPEN marker into a sub-list, in source order, and
// pushes that sub-list in place of the marker. The stack is returned as
// is, so completed top-level forms come out last-first.

module Parser {
  import opened Values

  /** The top of the stack; an empty stack is the "too many close parenthesis" error. */
  function Peek(tree: Value): (r: Result<Value>)
    requires IsList(tree)
    ensures r.Fail? <==> tree.Null?
    ensures r.Fail? ==> r.error == TooManyClose
    ensures r.Ok? ==> r.value == Elems(tree)[0]
  {
    if tree.Null? then Fail(TooManyClose) else Ok(tree.car)
  }

  /**
   * The stack with a copy of the token on top. A copy carries the same type
   * and payload as the token (a pair token gets the same car and cdr), so as
   * a value it is the token itself.
   */
  function Push(tree: Value, token: Value): (r: Value)
    requires IsList(tree)
    ensures IsList(r) && Elems(r) == [token] + Elems(tree)
    ensures Peek(r) == Ok(token)
  {
    Cons(token, tree)
  }

  // ---------------------------------------------------------------------
  // The parse as a fold over the token sequence (stack top first).

  /** The number of OPEN markers on a stack. */
  function OpenCount(st: seq<Value>): nat {
    if st == [] then 0 else (if st[0].Open? then 1 else 0) + OpenCount(st[1..])
  }

  lemma {:induction false} OpenCountAppend(a: seq<Value>, b: seq<Value>)
    ensures OpenCount(a + b) == OpenCount(a) + OpenCount(b)
  {
    if a == [] {
      assert a + b == b;
    } else {
      assert (a + b)[0] == a[0];
      assert (a + b)[1..] == a[1..] + b;
      OpenCountAppend(a[1..], b);
    }
  }

  lemma {:induction false} OpenCountMeansOpen(st: seq<Value>)
    ensures OpenCount(st) > 0 <==> Open in st
  {
    if st != [] {
      OpenCountMeansOpen(st[1..]);
      assert st == [st[0]] + st[1..];
    }
  }

  /** The position of the nearest OPEN marker below the top. */
  function OpenIndex(st: seq<Value>): (k: nat)
    requires Open in st
    ensures k < |st| && st[k] == Open && Open !in st[..k]
  {
    if st[0] == Open then 0 else 1 + OpenIndex(st[1..])
  }

  /** How a token changes the nesting depth. */
  function Delta(token: Value): int {
    if token.Open? then 1 else if token.Close? then -1 else 0
  }

  /**
   * addToParseTree on a stack of values: a non-close token is pushed (and
   * an OPEN raises the depth); a close token lowers the depth and replaces
   * the elements above the nearest OPEN, and the OPEN itself, by the list
   * of those elements in source order.
   */
  function Step(st: seq<Value>, depth: int, token: Value): (r: (seq<Value>, int))
    requires token.Close? ==> Open in st
    ensures r.1 == depth + Delta(token)
    ensures OpenCount(r.0) == OpenCount(st) + Delta(token)
    ensures |r.0| > 0
  {
    if !token.Close? then
      OpenCountAppend([token], st);
      ([token] + st, if token.Open? then depth + 1 else depth)
    else
      var k := OpenIndex(st);
      var sub := FromSeq(Reversed(st[..k]));
      assert st == st[..k] + [Open] + st[k + 1..];
      OpenCountAppend(st[..k] + [Open], st[k + 1..]);
      OpenCountAppend(st[..k], [Open]);
      OpenCountMeansOpen(st[..k]);
      OpenCountAppend([sub], st[k + 1..]);
      ([sub] + st[k + 1..], depth - 1)
  }

  /** No prefix of the tokens closes more lists than are open. */
  predicate NeverUnderflows(opens: int, tokens: seq<Value>)
    decreases tokens
  {
    tokens == [] || (opens + Delta(tokens[0]) >= 0 && NeverUnderflows(opens + Delta(tokens[0]), tokens[1..]))
  }

  /** The sum of the depth changes of the tokens. */
  function DepthChange(tokens: seq<Value>): int {
    if tokens == [] then 0 else Delta(tokens[0]) + DepthChange(tokens[1..])
  }

  /** Every token in turn, from the given stack and depth. */
  function Run(st: seq<Value>, depth: int, tokens: seq<Value>): (r: (seq<Value>, int))
    requires NeverUnderflows(OpenCount(st), tokens)
    ensures r.1 == depth + DepthChange(tokens)
    ensures OpenCount(r.0) == OpenCount(st) + DepthChange(tokens)
    ensures tokens != [] ==> |r.0| > 0
    decreases tokens
  {
    if tokens == [] then (st, depth)
    else
      OpenCountMeansOpen(st);
      var next := Step(st, depth, tokens[0]);
      Run(next.0, next.1, tokens[1..])
  }

  // ---------------------------------------------------------------------
  // The imperative parser.

  /** addToParseTree: one token, with the pop loop of a close token. */
  method AddToParseTree(tree: Value, depth: int, token: Value) returns (tree': Value, depth': int)
    requires IsList(tree)
    requires token.Close? ==> Open in Elems(tree)
    ensures IsList(tree') && (Elems(tree'), depth') == Step(Elems(tree), depth, token)
  {
    if !token.Close? {
      depth' := if token.Open? then depth + 1 else depth;
      tree' := Push(tree, token);
    } else {
      depth' := depth - 1;
      var subTree, rest := PopToOpen(tree);
      FromSeqElems(subTree);
      tree' := Push(rest, subTree);
    }
  }

  /**
   * The pop loop of a close token: the elements above the nearest OPEN,
   * collected in source order, and the stack below that OPEN.
   */
  method PopToOpen(tree: Value) returns (subTree: Value, rest: Value)
    requires IsList(tree) && Open in Elems(tree)
    ensures IsList(subTree) && Elems(subTree) == Reversed(Elems(tree)[..OpenIndex(Elems(tree))])
    ensures IsList(rest) && Elems(rest) == Elems(tree)[OpenIndex(Elems(tree)) + 1..]
  {
    ghost var st := Elems(tree);
    subTree := Null;
    var current := tree;
    while !current.car.Open?
      invariant IsList(current) && IsList(subTree)
      invariant Reversed(Elems(subTree)) + Elems(current) == st
      invariant Open !in Reversed(Elems(subTree)) && Open in Elems(current)
      decreases current
    {
      PopOne(current, subTree);
      subTree := Cons(current.car, subTree);
      current := current.cdr;
    }
    PopDone(st, subTree, current);
    rest := current.cdr;
  }

  /** The pop loop stops at the nearest OPEN: what it collected is above it, what is left below. */
  lemma PopDone(st: seq<Value>, subTree: Value, current: Value)
    requires IsList(current) && IsList(subTree) && current.Cons? && current.car.Open?
    requires Reversed(Elems(subTree)) + Elems(current) == st && Open !in Reversed(Elems(subTree))
    ensures Open in st
    ensures Elems(subTree) == Reversed(st[..OpenIndex(st)])
    ensures IsList(current.cdr) && Elems(current.cdr) == st[OpenIndex(st) + 1..]
  {
    assert Elems(current) == [Open] + Elems(current.cdr);
    OpenSplit(st, Reversed(Elems(subTree)), Elems(current.cdr));
    ReversedTwice(Elems(subTree));
  }

  /** One turn of the pop loop: the top moves from the stack onto the front of the sub-list. */
  lemma PopOne(current: Value, subTree: Value)
    requires IsList(current) && IsList(subTree) && Open in Elems(current)
    requires current.Cons? && !current.car.Open?
    ensures Open in Elems(current.cdr)
    ensures Reversed(Elems(Cons(current.car, subTree))) + Elems(current.cdr) ==
      Reversed(Elems(subTree)) + Elems(current)
    ensures Open !in Reversed(Elems(subTree)) ==> Open !in Reversed(Elems(Cons(current.car, subTree)))
  {
    ReversedElemsCons(current.car, subTree);
    AppendOne(Reversed(Elems(subTree)), current.car, Elems(current.cdr));
  }

  lemma ReversedElemsCons(x: Value, l: Value)
    requires IsList(l)
    ensures Reversed(Elems(Cons(x, l))) == Reversed(Elems(l)) + [x]
  {
    var xs := [x] + Elems(l);
    assert xs[1..] == Elems(l);
  }

  /** A stack with no OPEN above its nearest OPEN splits at that marker. */
  lemma OpenSplit(st: seq<Value>, above: seq<Value>, below: seq<Value>)
    requires st == above + ([Open] + below) && Open !in above
    ensures Open in st && OpenIndex(st) == |above|
    ensures st[..|above|] == above && st[|above| + 1..] == below
  {
    assert st[|above|] == Open;
    assert st[..|above|] == above;
    OpenIndexAt(st, |above|);
  }

  /** parse: every token in order from an empty stack; the stack is the result. */
  method Parse(tokens: Value) returns (tree: Value)
    requires IsList(tokens) && NeverUnderflows(0, Elems(tokens))
    ensures IsList(tree) && Elems(tree) == Run([], 0, Elems(tokens)).0
  {
    tree := Null;
    var depth := 0;
    var current := tokens;
    while !current.Null?
      invariant IsList(current) && IsList(tree)
      invariant NeverUnderflows(OpenCount(Elems(tree)), Elems(current))
      invariant Run([], 0, Elems(tokens)) == Run(Elems(tree), depth, Elems(current))
      decreases current
    {
      OpenCountMeansOpen(Elems(tree));
      tree, depth := AddToParseTree(tree, depth, current.car);
      current := current.cdr;
    }
  }

  // ---------------------------------------------------------------------
  // Parse trees and the token sequences they come from.

  /** A parse tree: an atom token, or a proper list of parse trees. */
  predicate IsDatum(v: Value)
    decreases v, 1
  {
    v.Int? || v.Double? || v.Str? || v.Bool? || v.Symbol? || IsDatumList(v)
  }

  predicate IsDatumList(v: Value)
    decreases v, 0
  {
    v.Null? || (v.Cons? && IsDatum(v.car) && IsDatumList(v.cdr))
  }

  /** The tokens that spell a parse tree. */
  function Flatten(v: Value): seq<Value>
    requires IsDatum(v)
    decreases v, 1
  {
    if IsDatumList(v) then [Open] + FlattenElems(v) + [Close] else [v]
  }

  function FlattenElems(v: Value): seq<Value>
    requires IsDatumList(v)
    decreases v, 0
  {
    if v.Null? then [] else Flatten(v.car) + FlattenElems(v.cdr)
  }

  /** The tokens that spell a sequence of top-level forms. */
  function FlattenAll(forms: seq<Value>): seq<Value>
    requires forall f | f in forms :: IsDatum(f)
  {
    if forms == [] then [] else Flatten(forms[0]) + FlattenAll(forms[1..])
  }

  lemma {:induction false} DepthChangeAppend(a: seq<Value>, b: seq<Value>)
    ensures DepthChange(a + b) == DepthChange(a) + DepthChange(b)
  {
    if a == [] {
      assert a + b == b;
    } else {
      assert (a + b)[0] == a[0];
      assert (a + b)[1..] == a[1..] + b;
      DepthChangeAppend(a[1..], b);
    }
  }

  lemma {:induction false} NeverUnderflowsAppend(opens: int, a: seq<Value>, b: seq<Value>)
    ensures NeverUnderflows(opens, a + b) <==>
      NeverUnderflows(opens, a) && NeverUnderflows(opens + DepthChange(a), b)
    decreases a
  {
    if a == [] {
      assert a + b == b;
    } else {
      assert (a + b)[0] == a[0];
      assert (a + b)[1..] == a[1..] + b;
      NeverUnderflowsAppend(opens + Delta(a[0]), a[1..], b);
    }
  }

  lemma {:induction false} RunAppend(st: seq<Value>, depth: int, a: seq<Value>, b: seq<Value>)
    requires NeverUnderflows(OpenCount(st), a + b)
    ensures NeverUnderflows(OpenCount(st), a)
    ensures NeverUnderflows(OpenCount(Run(st, depth, a).0), b)
    ensures Run(st, depth, a + b) == Run(Run(st, depth, a).0, Run(st, depth, a).1, b)
    decreases a
  {
    NeverUnderflowsAppend(OpenCount(st), a, b);
    if a == [] {
      assert a + b == b;
    } else {
      assert (a + b)[1..] == a[1..] + b;
      assert (a + b)[0] == a[0];
      OpenCountMeansOpen(st);
      var next := Step(st, depth, a[0]);
      RunAppend(next.0, next.1, a[1..], b);
    }
  }

  /** The tokens of a parse tree are balanced and never close an unopened list. */
  lemma {:induction false} FlattenBalanced(v: Value, opens: int)
    requires IsDatum(v) && opens >= 0
    ensures DepthChange(Flatten(v)) == 0 && NeverUnderflows(opens, Flatten(v))
    decreases v, 1
  {
    if IsDatumList(v) {
      FlattenElemsBalanced(v, opens + 1);
      DepthChangeAppend([Open] + FlattenElems(v), [Close]);
      DepthChangeAppend([Open], FlattenElems(v));
      NeverUnderflowsAppend(opens, [Open] + FlattenElems(v), [Close]);
      NeverUnderflowsAppend(opens, [Open], FlattenElems(v));
    }
  }

  lemma {:induction false} FlattenElemsBalanced(v: Value, opens: int)
    requires IsDatumList(v) && opens >= 0
    ensures DepthChange(FlattenElems(v)) == 0 && NeverUnderflows(opens, FlattenElems(v))
    decreases v, 0
  {
    if v.Cons? {
      var head, tail := Flatten(v.car), FlattenElems(v.cdr);
      assert FlattenElems(v) == head + tail;
      FlattenBalanced(v.car, opens);
      FlattenElemsBalanced(v.cdr, opens);
      DepthChangeAppend(head, tail);
      NeverUnderflowsAppend(opens, head, tail);
    }
  }

  /** A parse tree is never an OPEN marker. */
  lemma DatumNotOpen(xs: seq<Value>)
    requires forall x | x in xs :: IsDatum(x)
    ensures Open !in xs
  {
  }

  /** Parsing the tokens of a parse tree pushes exactly that tree. */
  lemma {:induction false} RunFlatten(st: seq<Value>, depth: int, v: Value)
    requires IsDatum(v)
    ensures NeverUnderflows(OpenCount(st), Flatten(v))
    ensures Run(st, depth, Flatten(v)) == ([v] + st, depth)
    decreases v, 3
  {
    FlattenBalanced(v, OpenCount(st));
    if IsDatumList(v) {
      RunFlattenList(st, depth, v);
    } else {
      RunSingle(st, depth, v);
    }
  }

  /** A list's tokens: its OPEN, its elements' tokens, then the close that gathers them. */
  lemma {:induction false} RunFlattenList(st: seq<Value>, depth: int, v: Value)
    requires IsDatumList(v) && NeverUnderflows(OpenCount(st), Flatten(v))
    ensures Run(st, depth, Flatten(v)) == ([v] + st, depth)
    decreases v, 2
  {
    assert Flatten(v) == [Open] + (FlattenElems(v) + [Close]);
    RunPushThen(st, depth, Open, FlattenElems(v) + [Close]);
    RunElemsClose(st, depth, v);
  }

  /** After the OPEN, the elements are pushed in turn and the close gathers them into the list. */
  lemma {:induction false} RunElemsClose(st: seq<Value>, depth: int, v: Value)
    requires IsDatumList(v) && NeverUnderflows(OpenCount([Open] + st), FlattenElems(v) + [Close])
    ensures Run([Open] + st, depth + 1, FlattenElems(v) + [Close]) == ([v] + st, depth)
    decreases v, 1
  {
    RunAppend([Open] + st, depth + 1, FlattenElems(v), [Close]);
    RunFlattenElems([Open] + st, depth + 1, v);
    RunCloseGathers(st, depth, v);
  }

  /** The close over the reversed elements and their OPEN pushes the list itself. */
  lemma RunCloseGathers(st: seq<Value>, depth: int, v: Value)
    requires IsDatumList(v) && IsList(v)
    ensures NeverUnderflows(OpenCount(Reversed(Elems(v)) + ([Open] + st)), [Close])
    ensures Run(Reversed(Elems(v)) + ([Open] + st), depth + 1, [Close]) == ([v] + st, depth)
  {
    DatumElems(v);
    AppendOne(Reversed(Elems(v)), Open, st);
    CloseAfterElems(Elems(v), st, depth + 1);
    CloseRuns(Reversed(Elems(v)) + [Open] + st, depth + 1);
    FromSeqElems(v);
  }

  /** A token other than a close is pushed before the rest are run. */
  lemma RunPushThen(st: seq<Value>, depth: int, token: Value, rest: seq<Value>)
    requires !token.Close? && NeverUnderflows(OpenCount(st), [token] + rest)
    ensures NeverUnderflows(OpenCount([token] + st), rest)
    ensures Run(st, depth, [token] + rest) == Run([token] + st, depth + Delta(token), rest)
  {
    assert ([token] + rest)[0] == token;
    assert ([token] + rest)[1..] == rest;
    OpenCountAppend([token], st);
  }

  /** Running one token is one step. */
  lemma RunSingle(st: seq<Value>, depth: int, token: Value)
    requires NeverUnderflows(OpenCount(st), [token])
    ensures token.Close? ==> Open in st
    ensures Run(st, depth, [token]) == Step(st, depth, token)
  {
    OpenCountMeansOpen(st);
    assert [token][1..] == [];
  }

  /** A close over a stack holding an OPEN is one step. */
  lemma CloseRuns(st: seq<Value>, depth: int)
    requires Open in st
    ensures NeverUnderflows(OpenCount(st), [Close])
    ensures Run(st, depth, [Close]) == Step(st, depth, Close)
  {
    OpenCountMeansOpen(st);
    assert [Close][1..] == [];
  }

  /** A close token over the reversed elements of a list and their marker completes that list. */
  lemma CloseAfterElems(xs: seq<Value>, rest: seq<Value>, depth: int)
    requires forall x | x in xs :: IsDatum(x)
    ensures Open in Reversed(xs) + [Open] + rest
    ensures Step(Reversed(xs) + [Open] + rest, depth, Close) == ([FromSeq(xs)] + rest, depth - 1)
  {
    var st := Reversed(xs) + [Open] + rest;
    var k := |xs|;
    assert st[k] == Open;
    assert st[..k] == Reversed(xs);
    DatumNotOpen(xs);
    ReversedMembers(xs);
    OpenIndexAt(st, k);
    ReversedTwice(xs);
    assert st[k + 1..] == rest;
  }

  lemma {:induction false} ReversedMembers(xs: seq<Value>)
    ensures forall x :: x in Reversed(xs) <==> x in xs
  {
    if xs != [] {
      ReversedMembers(xs[1..]);
      assert xs == [xs[0]] + xs[1..];
    }
  }

  lemma {:induction false} OpenIndexAt(st: seq<Value>, k: nat)
    requires k < |st| && st[k] == Open && Open !in st[..k]
    ensures OpenIndex(st) == k
  {
    if k > 0 {
      assert st[0] in st[..k];
      assert st[1..][..k - 1] == st[1..k];
      assert forall x | x in st[1..k] :: x in st[..k];
      OpenIndexAt(st[1..], k - 1);
    }
  }

  lemma {:induction false} DatumElems(v: Value)
    requires IsDatumList(v)
    ensures IsList(v) && forall x | x in Elems(v) :: IsDatum(x)
    decreases v
  {
    if v.Cons? {
      DatumElems(v.cdr);
    }
  }

  lemma ReversedSeqOnto(xs: seq<Value>, st: seq<Value>)
    requires xs != []
    ensures Reversed(xs) + st == Reversed(xs[1..]) + ([xs[0]] + st)
  {
  }

  lemma ReversedElemsOnto(v: Value, st: seq<Value>)
    requires v.Cons? && IsList(v)
    ensures Reversed(Elems(v)) + st == Reversed(Elems(v.cdr)) + ([v.car] + st)
  {
    ReversedCons(v.car, Elems(v.cdr));
  }

  /** Parsing the tokens of a list's elements pushes the elements, last on top. */
  lemma {:induction false} RunFlattenElems(st: seq<Value>, depth: int, v: Value)
    requires IsDatumList(v)
    ensures IsList(v)
    ensures NeverUnderflows(OpenCount(st), FlattenElems(v))
    ensures Run(st, depth, FlattenElems(v)) == (Reversed(Elems(v)) + st, depth)
    decreases v, 0
  {
    DatumElems(v);
    FlattenElemsBalanced(v, OpenCount(st));
    if v.Cons? {
      assert FlattenElems(v) == Flatten(v.car) + FlattenElems(v.cdr);
      RunAppend(st, depth, Flatten(v.car), FlattenElems(v.cdr));
      RunFlatten(st, depth, v.car);
      RunFlattenElems([v.car] + st, depth, v.cdr);
      ReversedElemsOnto(v, st);
    } else {
      assert Reversed(Elems(v)) + st == st;
    }
  }

  /**
   * Parsing the tokens of a sequence of forms leaves the forms on the
   * stack, last form first, at depth zero.
   */
  lemma {:induction false} ParseForms(forms: seq<Value>, st: seq<Value>, depth: int)
    requires forall f | f in forms :: IsDatum(f)
    ensures NeverUnderflows(OpenCount(st), FlattenAll(forms))
    ensures Run(st, depth, FlattenAll(forms)) == (Reversed(forms) + st, depth)
  {
    if forms != [] {
      var rest := forms[1..];
      assert FlattenAll(forms) == Flatten(forms[0]) + FlattenAll(rest);
      RunFlatten(st, depth, forms[0]);
      ParseForms(rest, [forms[0]] + st, depth);
      OpenCountAppend([forms[0]], st);
      NeverUnderflowsAppend(OpenCount(st), Flatten(forms[0]), FlattenAll(rest));
      FlattenBalanced(forms[0], OpenCount(st));
      RunAppend(st, depth, Flatten(forms[0]), FlattenAll(rest));
      ReversedSeqOnto(forms, st);
    } else {
      assert Reversed(forms) + st == st;
    }
  }

  /** The parser's result on the tokens of some forms is those forms in reverse order. */
  lemma ParseReversesForms(forms: seq<Value>)
    requires forall f | f in forms :: IsDatum(f)
    ensures NeverUnderflows(0, FlattenAll(forms))
    ensures Run([], 0, FlattenAll(forms)) == (Reversed(forms), 0)
  {
    ParseForms(forms, [], 0);
    assert Reversed(forms) + [] == Reversed(forms);
  }

  /**
   * The final depth is not checked: unbalanced input leaves one OPEN
   * marker on the returned stack per list left open.
   */
  lemma UnclosedListsStayOnStack(tokens: seq<Value>)
    requires NeverUnderflows(0, tokens)
    ensures Run([], 0, tokens).1 == OpenCount(Run([], 0, tokens).0) >= 0
  {
  }
}
