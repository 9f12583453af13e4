// What the evaluators may be given and what they keep true: well-formed
// parse trees, values whose closures are usable, valid stores; and the
// lambda form, which every stage from lambda-main on checks the same way.

module Forms {
  import opened Values
  import opened Environments

  /** The interpreter snapshots, in the order they were written. */
  datatype Stage = QuoteStage | LambdaStage | PrimitivesStage | FinalStage

  /** The names eval treats as special forms at each stage (on a symbol head). */
  predicate IsSpecial(stage: Stage, name: string) {
    name == "if" || name == "let" || name == "quote" ||
    (!stage.QuoteStage? && (name == "define" || name == "lambda")) ||
    (stage.FinalStage? && (name == "letrec" || name == "set!" || name == "begin"))
  }

  /**
   * A parse tree eval can walk without an assertion failing: every form is a
   * proper list (the parser builds no other), `if` has operands, every let
   * or letrec binding that is a pair has an init expression, and letrec's
   * binding list is not empty. These are the places where the source takes
   * car or cdr of the empty list. Quoted data is not walked. At the quote
   * stage an unrecognised form is an error before its operands are looked at.
   */
  predicate WF(stage: Stage, e: Value)
    decreases e, 1
  {
    match e
    case Cons(head, args) =>
      IsList(args) &&
      if head.Symbol? && IsSpecial(stage, head.name) then FormWF(stage, head.name, args)
      else stage.QuoteStage? || (WF(stage, head) && WFList(stage, args))
    case _ => true
  }

  /** Every element of a list is well formed. */
  predicate WFList(stage: Stage, l: Value)
    decreases l, 0
  {
    match l
    case Cons(x, rest) => WF(stage, x) && WFList(stage, rest)
    case _ => true
  }

  /** The operands of a special form, walked as that form walks them. */
  predicate FormWF(stage: Stage, name: string, args: Value)
    decreases args, 3
  {
    if name == "quote" then true
    else if name == "if" then args.Cons? && WFList(stage, args)
    else if name == "let" || name == "letrec" then
      args.Cons? && args.cdr.Cons? ==>
        (name == "letrec" ==> !args.car.Null?) && BindingsWF(stage, args.car) && WFList(stage, args.cdr)
    else if name == "define" || name == "set!" then
      args.Cons? && args.cdr.Cons? ==> WF(stage, args.cdr.car)
    else if name == "lambda" then
      args.Cons? ==> WFList(stage, args.cdr)
    else WFList(stage, args)
  }

  /** Each binding that is a pair has an init expression, and that expression is well formed. */
  predicate BindingsWF(stage: Stage, l: Value)
    decreases l, 2
  {
    match l
    case Cons(b, rest) =>
      (b.Cons? ==> b.cdr.Cons? && WF(stage, b.cdr.car)) && BindingsWF(stage, rest)
    case _ => true
  }

  /** Expressions that evaluate to themselves without touching the store. */
  predicate SelfEvaluating(v: Value) {
    v.Int? || v.Double? || v.Str? || v.Bool?
  }

  /** A tree holding no closure, as every parse tree does: it means the same in any store. */
  predicate Plain(v: Value) {
    match v
    case Closure(_, _, _) => false
    case Cons(a, b) => Plain(a) && Plain(b)
    case _ => true
  }

  /**
   * A value the evaluator can use with n frames in the store: every closure
   * in it captures an existing frame and has a proper parameter list and a
   * non-empty, well-formed body taken from a parse tree (evalLambda makes no
   * other).
   */
  predicate ValueOk(stage: Stage, v: Value, n: nat)
    decreases v
  {
    match v
    case Closure(params, body, env) =>
      env < n && IsList(params) && IsList(body) && body.Cons? && WFList(stage, body) && Plain(body)
    case Cons(a, b) => ValueOk(stage, a, n) && ValueOk(stage, b, n)
    case _ => true
  }

  /** A list built from well-formed, closure-free trees is both. */
  lemma {:induction false} FromSeqWF(stage: Stage, xs: seq<Value>)
    requires forall i | 0 <= i < |xs| :: WF(stage, xs[i]) && Plain(xs[i])
    ensures WFList(stage, FromSeq(xs)) && Plain(FromSeq(xs))
    decreases |xs|
  {
    if xs != [] {
      FromSeqWF(stage, xs[1..]);
    }
  }

  /** A list built from closure-free trees is closure-free, at every stage. */
  lemma {:induction false} PlainFromSeq(xs: seq<Value>)
    requires forall i | 0 <= i < |xs| :: Plain(xs[i])
    ensures Plain(FromSeq(xs))
    decreases |xs|
  {
    if xs != [] {
      PlainFromSeq(xs[1..]);
    }
  }

  /** A part of a parse tree is usable in any store. */
  lemma {:induction false} PlainOk(stage: Stage, v: Value, n: nat)
    requires Plain(v)
    ensures ValueOk(stage, v, n)
  {
    if v.Cons? {
      PlainOk(stage, v.car, n);
      PlainOk(stage, v.cdr, n);
    }
  }

  /** Every element of a list is usable. */
  predicate ElemsOk(stage: Stage, xs: seq<Value>, n: nat) {
    forall i | 0 <= i < |xs| :: ValueOk(stage, xs[i], n)
  }

  /** A store the evaluator can run in: chained frames holding usable values. */
  predicate Valid(stage: Stage, st: Store) {
    Chained(st) &&
    forall g, j | 0 <= g < |st| && 0 <= j < |st[g].bindings| :: ValueOk(stage, st[g].bindings[j].value, |st|)
  }

  /**
   * What evaluation does to a store: frames are only added, no frame
   * changes its parent, and no binding disappears.
   */
  ghost predicate Grows(st: Store, st': Store) {
    |st| <= |st'| &&
    forall g | 0 <= g < |st| ::
      st'[g].parent == st[g].parent &&
      forall x :: BoundIn(st[g].bindings, x) ==> BoundIn(st'[g].bindings, x)
  }

  lemma GrowsRefl(st: Store)
    ensures Grows(st, st)
  {
  }

  lemma GrowsTrans(a: Store, b: Store, c: Store)
    requires Grows(a, b) && Grows(b, c)
    ensures Grows(a, c)
  {
  }

  /** A binding present before a store grows is present after. */
  lemma GrowsKeeps(st: Store, st': Store, g: nat, x: string)
    requires Grows(st, st') && g < |st| && BoundIn(st[g].bindings, x)
    ensures g < |st'| && BoundIn(st'[g].bindings, x)
  {
  }

  /** A value usable with n frames stays usable as the store grows. */
  lemma {:induction false} ValueOkMono(stage: Stage, v: Value, n: nat, m: nat)
    requires ValueOk(stage, v, n) && n <= m
    ensures ValueOk(stage, v, m)
  {
    match v
    case Cons(a, b) =>
      ValueOkMono(stage, a, n, m);
      ValueOkMono(stage, b, n, m);
    case _ =>
  }

  /** The elements of a usable list are usable, and so is the list rebuilt from them. */
  lemma {:induction false} ElemsOfOk(stage: Stage, v: Value, n: nat)
    requires IsList(v)
    ensures ValueOk(stage, v, n) <==> ElemsOk(stage, Elems(v), n)
  {
    if v.Cons? {
      ElemsOfOk(stage, v.cdr, n);
      var xs := Elems(v);
      assert xs == [v.car] + Elems(v.cdr);
      if ElemsOk(stage, xs, n) {
        assert ValueOk(stage, xs[0], n);
        forall i | 0 <= i < |Elems(v.cdr)| ensures ValueOk(stage, Elems(v.cdr)[i], n) {
          assert Elems(v.cdr)[i] == xs[i + 1];
        }
      }
    }
  }

  lemma ElemsOkMono(stage: Stage, xs: seq<Value>, n: nat, m: nat)
    requires ElemsOk(stage, xs, n) && n <= m
    ensures ElemsOk(stage, xs, m)
  {
    forall i | 0 <= i < |xs| ensures ValueOk(stage, xs[i], m) {
      ValueOkMono(stage, xs[i], n, m);
    }
  }

  /** Reversing a usable list gives a usable list. */
  lemma ReverseListOk(stage: Stage, v: Value, n: nat)
    requires IsList(v) && ValueOk(stage, v, n)
    ensures IsList(ReverseList(v)) && ValueOk(stage, ReverseList(v), n)
  {
    ElemsOfOk(stage, v, n);
    ElemsOfOk(stage, ReverseList(v), n);
    var xs := Elems(v);
    forall i | 0 <= i < |xs| ensures ValueOk(stage, Reversed(xs)[i], n) {
      ReversedAt(xs, i);
    }
  }

  // ---------------------------------------------------------------------
  // The store operations keep a store valid, and it grows.

  /** A name looked up in a valid store has a usable value. */
  lemma LookUpOk(stage: Stage, st: Store, f: nat, name: string)
    requires Valid(stage, st) && f < |st| && LookUp(st, f, name).Ok?
    ensures ValueOk(stage, LookUp(st, f, name).value, |st|)
  {
    var g := Find(st, f, name).value;
    var j := FirstIndex(st[g].bindings, name);
    assert LookUp(st, f, name).value == st[g].bindings[j].value;
  }

  lemma ValidMakeFrame(stage: Stage, st: Store, parent: Option<nat>)
    requires Valid(stage, st) && (parent.Some? ==> parent.value < |st|)
    ensures Valid(stage, MakeFrame(st, parent).0) && Grows(st, MakeFrame(st, parent).0)
  {
    var st' := MakeFrame(st, parent).0;
    forall g, j | 0 <= g < |st'| && 0 <= j < |st'[g].bindings|
      ensures ValueOk(stage, st'[g].bindings[j].value, |st'|)
    {
      assert g < |st| && st'[g] == st[g];
      ValueOkMono(stage, st[g].bindings[j].value, |st|, |st'|);
    }
  }

  /** A store with one more binding at the front of frame f. */
  function Prepended(st: Store, f: nat, b: Binding): (r: Store)
    requires f < |st|
    ensures |r| == |st|
  {
    st[f := Frame([b] + st[f].bindings, st[f].parent)]
  }

  lemma PrependedGrows(st: Store, f: nat, b: Binding)
    requires f < |st|
    ensures Grows(st, Prepended(st, f, b))
  {
    var st' := Prepended(st, f, b);
    forall g, x | 0 <= g < |st| && BoundIn(st[g].bindings, x) ensures BoundIn(st'[g].bindings, x) {
      if g == f {
        var k :| 0 <= k < |st[g].bindings| && st[g].bindings[k].name == x;
        assert st'[g].bindings[k + 1].name == x;
      }
    }
  }

  lemma PrependedValid(stage: Stage, st: Store, f: nat, b: Binding)
    requires Valid(stage, st) && f < |st| && ValueOk(stage, b.value, |st|)
    ensures Valid(stage, Prepended(st, f, b))
  {
    var st' := Prepended(st, f, b);
    assert Chained(st') by {
      forall g | 0 <= g < |st'| ensures st'[g].parent == st[g].parent { }
    }
    forall g, j | 0 <= g < |st'| && 0 <= j < |st'[g].bindings|
      ensures ValueOk(stage, st'[g].bindings[j].value, |st'|)
    {
      if g == f && j > 0 {
        assert st'[g].bindings[j] == st[g].bindings[j - 1];
      }
    }
  }

  lemma ValidWithBinding(stage: Stage, st: Store, f: nat, name: Value, v: Value)
    requires Valid(stage, st) && f < |st| && ValueOk(stage, v, |st|)
    requires WithBinding(st, f, name, v).Ok?
    ensures Valid(stage, WithBinding(st, f, name, v).value)
    ensures Grows(st, WithBinding(st, f, name, v).value)
  {
    var st' := WithBinding(st, f, name, v).value;
    assert st' == Prepended(st, f, Binding(name.name, v));
    PrependedGrows(st, f, Binding(name.name, v));
    PrependedValid(stage, st, f, Binding(name.name, v));
  }

  lemma ValidSetBinding(stage: Stage, st: Store, g: nat, name: string, v: Value)
    requires Valid(stage, st) && g < |st| && BoundIn(st[g].bindings, name) && ValueOk(stage, v, |st|)
    ensures Valid(stage, SetBinding(st, g, name, v)) && Grows(st, SetBinding(st, g, name, v))
  {
    var st' := SetBinding(st, g, name, v);
    SetBindingShape(st, g, name, v);
    forall h, x | 0 <= h < |st| && BoundIn(st[h].bindings, x) ensures BoundIn(st'[h].bindings, x) {
      assert SameShape(st, st', |st|, x);
    }
  }

  // ---------------------------------------------------------------------
  // lambda

  /**
   * The parameter check of evalLambda, given the names already seen: each
   * element must be a pair cell (else the list is badly formed), hold a
   * symbol, and not repeat an earlier name.
   */
  function ParamsError(params: Value, seen: seq<string>): Option<Error>
    decreases params
  {
    if params.Null? then None
    else if !params.Cons? then Some(LambdaBadParams)
    else if !params.car.Symbol? then Some(LambdaNonVariable)
    else if params.car.name in seen then Some(LambdaDuplicate)
    else ParamsError(params.cdr, seen + [params.car.name])
  }

  /** Symbols with pairwise distinct names. */
  predicate DistinctSymbols(xs: seq<Value>) {
    (forall i | 0 <= i < |xs| :: xs[i].Symbol?) &&
    forall i, j | 0 <= i < j < |xs| :: xs[i].name != xs[j].name
  }

  /** The names of a sequence of symbols. */
  function Names(xs: seq<Value>): (r: seq<string>)
    requires forall i | 0 <= i < |xs| :: xs[i].Symbol?
    ensures |r| == |xs| && forall i | 0 <= i < |xs| :: r[i] == xs[i].name
  {
    if xs == [] then [] else [xs[0].name] + Names(xs[1..])
  }

  /**
   * The check passes exactly on a proper list of distinct symbols none of
   * which was seen before.
   */
  lemma {:induction false} ParamsErrorMeans(params: Value, seen: seq<string>)
    ensures ParamsError(params, seen).None? <==>
      IsList(params) && DistinctSymbols(Elems(params)) &&
      forall i | 0 <= i < |Elems(params)| :: Elems(params)[i].name !in seen
    decreases params
  {
    if params.Cons? && params.car.Symbol? && params.car.name !in seen {
      ParamsErrorMeans(params.cdr, seen + [params.car.name]);
      if IsList(params) {
        assert Elems(params) == [params.car] + Elems(params.cdr);
        FreshCons(params.car, Elems(params.cdr), seen);
      }
    } else if params.Cons? && IsList(params) {
      var xs := Elems(params);
      assert xs[0] == params.car;
    }
  }

  /**
   * A symbol followed by others is a run of distinct names unseen so far
   * exactly when the symbol is unseen and the rest are distinct and unseen
   * once it is added.
   */
  lemma FreshCons(x: Value, ys: seq<Value>, seen: seq<string>)
    requires x.Symbol? && x.name !in seen
    ensures var xs := [x] + ys;
      (DistinctSymbols(xs) && forall i | 0 <= i < |xs| :: xs[i].name !in seen) <==>
      (DistinctSymbols(ys) && forall i | 0 <= i < |ys| :: ys[i].name !in seen + [x.name])
  {
    var xs := [x] + ys;
    if DistinctSymbols(ys) && forall i | 0 <= i < |ys| :: ys[i].name !in seen + [x.name] {
      forall i, j | 0 <= i < j < |xs| ensures xs[i].name != xs[j].name {
        if i == 0 {
          assert xs[j] == ys[j - 1];
        } else {
          assert xs[i] == ys[i - 1] && xs[j] == ys[j - 1];
        }
      }
      forall i | 0 <= i < |xs| ensures xs[i].Symbol? && xs[i].name !in seen {
        if i > 0 {
          assert xs[i] == ys[i - 1];
        }
      }
    }
    if DistinctSymbols(xs) && forall i | 0 <= i < |xs| :: xs[i].name !in seen {
      forall i | 0 <= i < |ys| ensures ys[i].Symbol? && ys[i].name !in seen + [x.name] {
        assert ys[i] == xs[i + 1];
        assert xs[0].name != xs[i + 1].name;
      }
      forall i, j | 0 <= i < j < |ys| ensures ys[i].name != ys[j].name {
        assert ys[i] == xs[i + 1] && ys[j] == xs[j + 1];
      }
    }
  }

  /**
   * evalLambda's parameter loop: for each parameter, the pair and symbol
   * checks, then an inner scan of the names already visited.
   */
  method CheckParams(params: Value) returns (r: Option<Error>)
    ensures r == ParamsError(params, [])
  {
    var param := params;
    var visited: seq<string> := [];
    while !param.Null?
      invariant ParamsError(params, []) == ParamsError(param, visited)
      decreases param
    {
      if !param.Cons? {
        return Some(LambdaBadParams);
      }
      if !param.car.Symbol? {
        return Some(LambdaNonVariable);
      }
      var k := 0;
      while k < |visited|
        invariant 0 <= k <= |visited|
        invariant forall j | 0 <= j < k :: visited[j] != param.car.name
      {
        if visited[k] == param.car.name {
          return Some(LambdaDuplicate);
        }
        k := k + 1;
      }
      visited := visited + [param.car.name];
      param := param.cdr;
    }
    return None;
  }

  /**
   * evalLambda: at least a parameter list and one body expression, a
   * parameter list that passes the check; the closure captures the current
   * frame, the parameter list and the body list.
   */
  function EvalLambda(stage: Stage, args: Value, f: nat, n: nat): (r: Result<Value>)
    requires IsList(args) && FormWF(stage, "lambda", args) && Plain(args) && f < n
    ensures r.Ok? <==> args.Cons? && args.cdr.Cons? && ParamsError(args.car, []).None?
    ensures r.Fail? && (args.Null? || args.cdr.Null?) ==> r.error == LambdaArity
    ensures r.Fail? && args.Cons? && args.cdr.Cons? ==> Some(r.error) == ParamsError(args.car, [])
    ensures r.Ok? ==> r.value == Closure(args.car, args.cdr, f) && ValueOk(stage, r.value, n)
    ensures r.Ok? ==> IsList(args.car) && DistinctSymbols(Elems(args.car))
  {
    if args.Null? || args.cdr.Null? then Fail(LambdaArity)
    else match ParamsError(args.car, [])
      case Some(e) => Fail(e)
      case None =>
        assert IsList(args.cdr);
        ParamsErrorMeans(args.car, []);
        Ok(Closure(args.car, args.cdr, f))
  }

  /** What a program printed before it ended, and the error that ended it early, if any. */
  datatype Outcome = Outcome(results: seq<Value>, error: Option<Error>)

  // ---------------------------------------------------------------------
  // Binding a closure's parameters

  /**
   * apply's parameter loop: each parameter is bound to the next argument;
   * running out of arguments first is too few, arguments left over at the
   * end is too many.
   */
  function BindParams(stage: Stage, st: Store, g: nat, params: Value, args: Value): (r: Result<Store>)
    requires Valid(stage, st) && g < |st| && IsList(params) && IsList(args) && ValueOk(stage, args, |st|)
    ensures r.Ok? ==> Valid(stage, r.value) && Grows(st, r.value)
    ensures r.Ok? ==> |r.value| == |st|
    decreases params
  {
    if params.Null? then
      if !args.Null? then Fail(TooManyArgs)
      else
        GrowsRefl(st);
        Ok(st)
    else if args.Null? then Fail(TooFewArgs)
    else
      var st1 :- WithBinding(st, g, params.car, args.car);
      ValidWithBinding(stage, st, g, params.car, args.car);
      var st2 :- BindParams(stage, st1, g, params.cdr, args.cdr);
      GrowsTrans(st, st1, st2);
      Ok(st2)
  }

  /** apply's parameter loop over the list cells, with addBinding's scan. */
  method BindArgs(stage: Stage, st: Store, g: nat, params: Value, args: Value) returns (r: Result<Store>)
    requires Valid(stage, st) && g < |st| && IsList(params) && IsList(args) && ValueOk(stage, args, |st|)
    ensures r == BindParams(stage, st, g, params, args)
  {
    var current := st;
    var param := params;
    var arg := args;
    while !param.Null?
      invariant IsList(param) && IsList(arg) && Valid(stage, current) && |current| == |st|
      invariant ValueOk(stage, arg, |current|)
      invariant BindParams(stage, st, g, params, args) == BindParams(stage, current, g, param, arg)
      decreases param
    {
      if arg.Null? {
        return Fail(TooFewArgs);
      }
      var next := AddBinding(current, g, param.car, arg.car);
      if next.Fail? {
        return Fail(next.error);
      }
      ValidWithBinding(stage, current, g, param.car, arg.car);
      current := next.value;
      param := param.cdr;
      arg := arg.cdr;
    }
    if !arg.Null? {
      return Fail(TooManyArgs);
    }
    return Ok(current);
  }

  /** Binding parameters changes no lookup of a name that is not a parameter. */
  lemma {:induction false} BindParamsKeeps(stage: Stage, st: Store, g: nat, params: Value, args: Value, h: nat, y: string)
    requires Valid(stage, st) && g < |st| && h < |st| && IsList(params) && IsList(args) && ValueOk(stage, args, |st|)
    requires forall i | 0 <= i < |Elems(params)| :: Elems(params)[i].Symbol? && Elems(params)[i].name != y
    ensures BindParams(stage, st, g, params, args).Ok? ==> LookUp(BindParams(stage, st, g, params, args).value, h, y) == LookUp(st, h, y)
    decreases params
  {
    if params.Cons? && args.Cons? && BindParams(stage, st, g, params, args).Ok? {
      assert Elems(params)[0] == params.car;
      var st1 := WithBinding(st, g, params.car, args.car).value;
      ValidWithBinding(stage, st, g, params.car, args.car);
      LookUpWithBinding(st, g, params.car, args.car, h, y);
      assert forall i | 0 <= i < |Elems(params.cdr)| :: Elems(params.cdr)[i] == Elems(params)[i + 1];
      BindParamsKeeps(stage, st1, g, params.cdr, args.cdr, h, y);
    }
  }

  /**
   * apply's parameter loop, for distinct parameter names not yet bound in
   * the frame: it succeeds exactly when there are as many arguments as
   * parameters, fails with too few or too many otherwise, and on success
   * each parameter refers to its argument from that frame.
   */
  lemma {:induction false} BindParamsMeans(stage: Stage, st: Store, g: nat, params: Value, args: Value)
    requires Valid(stage, st) && g < |st| && IsList(params) && IsList(args) && ValueOk(stage, args, |st|)
    requires DistinctSymbols(Elems(params))
    requires forall i | 0 <= i < |Elems(params)| :: !BoundIn(st[g].bindings, Elems(params)[i].name)
    ensures BindParams(stage, st, g, params, args).Ok? <==> |Elems(params)| == |Elems(args)|
    ensures |Elems(params)| < |Elems(args)| ==> BindParams(stage, st, g, params, args) == Fail(TooManyArgs)
    ensures |Elems(params)| > |Elems(args)| ==> BindParams(stage, st, g, params, args) == Fail(TooFewArgs)
    ensures BindParams(stage, st, g, params, args).Ok? ==>
      forall i | 0 <= i < |Elems(params)| ::
        LookUp(BindParams(stage, st, g, params, args).value, g, Elems(params)[i].name) == Ok(Elems(args)[i])
    decreases params
  {
    if params.Cons? && args.Cons? {
      var ps := Elems(params);
      assert ps[0] == params.car && ps[1..] == Elems(params.cdr);
      assert Elems(args)[1..] == Elems(args.cdr);
      assert WithBinding(st, g, params.car, args.car).Ok?;
      var st1 := WithBinding(st, g, params.car, args.car).value;
      ValidWithBinding(stage, st, g, params.car, args.car);
      ValueOkMono(stage, args, |st|, |st1|);
      DistinctTail(ps);
      UnboundAfterFirst(st, g, ps, args.car);
      BindParamsMeans(stage, st1, g, params.cdr, args.cdr);
      var r := BindParams(stage, st, g, params, args);
      if r.Ok? {
        LookUpWithBinding(st, g, params.car, args.car, g, params.car.name);
        BindParamsKeeps(stage, st1, g, params.cdr, args.cdr, g, params.car.name);
        forall i | 0 <= i < |ps| ensures LookUp(r.value, g, ps[i].name) == Ok(Elems(args)[i]) {
          if i > 0 {
            assert ps[i] == ps[1..][i - 1] && Elems(args)[i] == Elems(args.cdr)[i - 1];
          }
        }
      }
    }
  }

  /** The names after the first of distinct symbols are distinct and differ from the first. */
  lemma DistinctTail(ps: seq<Value>)
    requires ps != [] && DistinctSymbols(ps)
    ensures DistinctSymbols(ps[1..])
    ensures forall i | 0 <= i < |ps[1..]| :: ps[1..][i].Symbol? && ps[1..][i].name != ps[0].name
  {
    forall i, j | 0 <= i < j < |ps| - 1 ensures ps[1..][i].name != ps[1..][j].name {
      assert ps[1..][i] == ps[i + 1] && ps[1..][j] == ps[j + 1];
    }
    forall i | 0 <= i < |ps[1..]| ensures ps[1..][i].Symbol? && ps[1..][i].name != ps[0].name {
      assert ps[1..][i] == ps[i + 1];
    }
  }

  /** Binding the first of distinct fresh names leaves the others unbound in that frame. */
  lemma UnboundAfterFirst(st: Store, g: nat, ps: seq<Value>, v: Value)
    requires g < |st| && ps != [] && DistinctSymbols(ps)
    requires forall i | 0 <= i < |ps| :: !BoundIn(st[g].bindings, ps[i].name)
    ensures WithBinding(st, g, ps[0], v).Ok?
    ensures forall i | 0 <= i < |ps[1..]| :: !BoundIn(WithBinding(st, g, ps[0], v).value[g].bindings, ps[1..][i].name)
  {
    assert !BoundIn(st[g].bindings, ps[0].name);
    var st1 := WithBinding(st, g, ps[0], v).value;
    forall i | 0 <= i < |ps| - 1 ensures !BoundIn(st1[g].bindings, ps[1..][i].name) {
      assert ps[1..][i] == ps[i + 1];
      assert ps[0].name != ps[i + 1].name;
      assert !BoundIn(st[g].bindings, ps[i + 1].name);
      forall k | 0 <= k < |st1[g].bindings| ensures st1[g].bindings[k].name != ps[i + 1].name {
        if k > 0 {
          assert st1[g].bindings[k] == st[g].bindings[k - 1];
        }
      }
    }
  }

  // ---------------------------------------------------------------------
  // Binding lists of let and letrec

  /** A binding list every element of which is a pair, as let and letrec require. */
  predicate PairList(bl: Value) {
    bl.Null? || (bl.Cons? && bl.car.Cons? && PairList(bl.cdr))
  }

  /** The names of a binding list, front to back. */
  function BindingNames(bl: Value): seq<Value>
    requires PairList(bl)
  {
    if bl.Null? then [] else [bl.car.car] + BindingNames(bl.cdr)
  }

  /**
   * A binding loop's step, by the names it has bound: a fresh symbol bound
   * first, then a run of distinct names that were fresh after it, make a
   * run of distinct names that were fresh before it, as long as bindings
   * are only ever added to the frame.
   */
  lemma FreshNamesCons(bl: Value, v: Value, bs0: seq<Binding>, bs1: seq<Binding>, bs3: seq<Binding>)
    requires bl.Cons? && bl.car.Cons? && bl.car.car.Symbol? && PairList(bl.cdr)
    requires !BoundIn(bs1, bl.car.car.name)
    requires forall y :: BoundIn(bs0, y) ==> BoundIn(bs1, y)
    requires var bs2 := [Binding(bl.car.car.name, v)] + bs1;
      (forall y :: BoundIn(bs2, y) ==> BoundIn(bs3, y)) &&
      DistinctSymbols(BindingNames(bl.cdr)) &&
      forall i | 0 <= i < |BindingNames(bl.cdr)| ::
        !BoundIn(bs2, BindingNames(bl.cdr)[i].name) && BoundIn(bs3, BindingNames(bl.cdr)[i].name)
    ensures PairList(bl) && DistinctSymbols(BindingNames(bl))
    ensures forall i | 0 <= i < |BindingNames(bl)| ::
      !BoundIn(bs0, BindingNames(bl)[i].name) && BoundIn(bs3, BindingNames(bl)[i].name)
  {
    var x := bl.car.car;
    var bs2 := [Binding(x.name, v)] + bs1;
    var ns := BindingNames(bl);
    assert ns == [x] + BindingNames(bl.cdr);
    assert BoundIn(bs2, x.name) by {
      assert bs2[0].name == x.name;
    }
    forall y | BoundIn(bs1, y) ensures BoundIn(bs2, y) {
      var k :| 0 <= k < |bs1| && bs1[k].name == y;
      assert bs2[k + 1].name == y;
    }
    forall i | 1 <= i < |ns|
      ensures ns[i].Symbol? && ns[i].name != x.name && !BoundIn(bs1, ns[i].name)
    {
      assert ns[i] == BindingNames(bl.cdr)[i - 1];
    }
    forall i, j | 0 <= i < j < |ns| ensures ns[i].name != ns[j].name {
      if 0 < i {
        assert ns[i] == BindingNames(bl.cdr)[i - 1] && ns[j] == BindingNames(bl.cdr)[j - 1];
      }
    }
    forall i | 0 <= i < |ns| ensures !BoundIn(bs0, ns[i].name) && BoundIn(bs3, ns[i].name) {
      if 0 < i {
        assert ns[i] == BindingNames(bl.cdr)[i - 1];
      }
    }
  }

  /**
   * A run of names that starts with a fresh symbol x is a run of distinct
   * names fresh in a frame exactly when the rest is a run of distinct names
   * fresh once x is bound there.
   */
  lemma FreshNamesStep(x: Value, ys: seq<Value>, bs: seq<Binding>, v: Value)
    requires x.Symbol? && !BoundIn(bs, x.name)
    ensures var xs := [x] + ys;
      (DistinctSymbols(xs) && forall i | 0 <= i < |xs| :: !BoundIn(bs, xs[i].name)) <==>
      (DistinctSymbols(ys) && forall i | 0 <= i < |ys| :: !BoundIn([Binding(x.name, v)] + bs, ys[i].name))
  {
    var xs := [x] + ys;
    var bs1 := [Binding(x.name, v)] + bs;
    forall n ensures BoundIn(bs1, n) <==> n == x.name || BoundIn(bs, n) {
      assert bs1[0].name == x.name;
      if BoundIn(bs, n) {
        var k :| 0 <= k < |bs| && bs[k].name == n;
        assert bs1[k + 1].name == n;
      }
      if BoundIn(bs1, n) && n != x.name {
        var k :| 0 <= k < |bs1| && bs1[k].name == n;
        assert bs[k - 1].name == n;
      }
    }
    assert forall i | 0 <= i < |ys| :: ys[i] == xs[i + 1];
    if DistinctSymbols(ys) && forall i | 0 <= i < |ys| :: !BoundIn(bs1, ys[i].name) {
      forall i, j | 0 <= i < j < |xs| ensures xs[i].name != xs[j].name {
        assert !BoundIn(bs1, xs[j].name);
      }
      forall i | 0 <= i < |xs| ensures xs[i].Symbol? && !BoundIn(bs, xs[i].name) {
        if 0 < i {
          assert !BoundIn(bs1, xs[i].name);
        }
      }
    }
    if DistinctSymbols(xs) && forall i | 0 <= i < |xs| :: !BoundIn(bs, xs[i].name) {
      forall i | 0 <= i < |ys| ensures !BoundIn(bs1, ys[i].name) {
        assert xs[0].name != xs[i + 1].name;
      }
    }
  }

  // ---------------------------------------------------------------------
  // Building forms

  /** The list (name a b ...) of a special form. */
  function Form(name: string, operands: seq<Value>): (r: Value)
    ensures r.Cons? && r.car == Symbol(name) && IsList(r.cdr) && Elems(r.cdr) == operands
  {
    Cons(Symbol(name), FromSeq(operands))
  }

  /** The one-binding form (kw ((x e)) x), with kw let or letrec. */
  function OneBinding(kw: string, x: string, e: Value): (r: Value)
    ensures r.Cons? && r.car == Symbol(kw)
  {
    Form(kw, [FromSeq([FromSeq([Symbol(x), e])]), Symbol(x)])
  }

  /** The argument list of OneBinding, pair by pair. */
  lemma OneBindingShape(kw: string, x: string, e: Value)
    ensures OneBinding(kw, x, e).cdr ==
      Cons(Cons(Cons(Symbol(x), Cons(e, Null)), Null), Cons(Symbol(x), Null))
  {
    FromSeqCons(Symbol(x), [e]);
    FromSeqCons(e, []);
    assert [Symbol(x), e] == [Symbol(x)] + [e] && [e] == [e] + [];
    var b := FromSeq([Symbol(x), e]);
    FromSeqCons(b, []);
    assert [b] == [b] + [];
    var bl := FromSeq([b]);
    FromSeqCons(bl, [Symbol(x)]);
    FromSeqCons(Symbol(x), []);
    assert [bl, Symbol(x)] == [bl] + [Symbol(x)] && [Symbol(x)] == [Symbol(x)] + [];
  }

  /** The one-binding forms are well formed and closure-free. */
  lemma OneBindingWF(stage: Stage, kw: string, x: string, e: Value)
    requires kw == "let" || (kw == "letrec" && stage.FinalStage?)
    requires WF(stage, e) && Plain(e)
    ensures var args := OneBinding(kw, x, e).cdr;
      args == Cons(Cons(Cons(Symbol(x), Cons(e, Null)), Null), Cons(Symbol(x), Null)) &&
      IsList(args) && FormWF(stage, kw, args) && Plain(args) &&
      WF(stage, OneBinding(kw, x, e)) && Plain(OneBinding(kw, x, e))
  {
    var args := OneBinding(kw, x, e).cdr;
    OneBindingShape(kw, x, e);
    var sx := Cons(Symbol(x), Null);
    var b := Cons(Symbol(x), Cons(e, Null));
    assert Plain(Null) && WFList(stage, Null) && WF(stage, Symbol(x)) && Plain(Symbol(x));
    assert Plain(Cons(e, Null)) && Plain(b) && Plain(Cons(b, Null)) && Plain(sx);
    assert WF(stage, b.cdr.car) && BindingsWF(stage, Cons(b, Null));
    assert WFList(stage, sx) && IsList(sx) && args == Cons(Cons(b, Null), sx);
    assert Plain(args) && IsList(args) && FormWF(stage, kw, args);
  }

  /** The forms (define x e) and (set! x e) are well formed and closure-free. */
  lemma NamedFormWF(stage: Stage, kw: string, x: string, e: Value)
    requires kw == "define" || kw == "set!"
    requires WF(stage, e) && Plain(e)
    ensures var args := Form(kw, [Symbol(x), e]).cdr;
      args == Cons(Symbol(x), Cons(e, Null)) &&
      IsList(args) && FormWF(stage, kw, args) && Plain(args) &&
      WF(stage, Form(kw, [Symbol(x), e])) && Plain(Form(kw, [Symbol(x), e]))
  {
    var args := Form(kw, [Symbol(x), e]).cdr;
    FromSeqWF(stage, [Symbol(x), e]);
    FromSeqCons(Symbol(x), [e]);
    FromSeqCons(e, []);
    assert [Symbol(x), e] == [Symbol(x)] + [e] && [e] == [e] + [];
    assert args == Cons(Symbol(x), Cons(e, Null));
    assert IsList(args) && FormWF(stage, kw, args);
  }
}
