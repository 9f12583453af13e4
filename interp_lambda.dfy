// The evaluator of lambda-main/interpreter.c: the special forms if, let,
// quote, define and lambda, and application of closures with static scope.
// There are no primitives: the global frame starts empty.
//
// eval and the loops that call it are functions here, with a fuel count
// that every call of eval uses up (a Scheme program need not terminate).
// Every function promises that a successful evaluation leaves a valid store
// that has only grown and a usable value.

module LambdaInterpreter {
  import opened Values
  import opened Environments
  import opened Forms

  const S: Stage := LambdaStage

  /** A successful evaluation from store st: valid and grown store, usable value. */
  ghost predicate Produced(st: Store, r: Result<(Value, Store)>) {
    r.Ok? ==> Valid(S, r.value.1) && Grows(st, r.value.1) && ValueOk(S, r.value.0, |r.value.1|)
  }

  /**
   * eval: literals evaluate to themselves, a symbol to the value of its
   * binding, a list to a special form or an application; any other tree to
   * the empty list.
   */
  function Eval(fuel: nat, e: Value, f: nat, st: Store): (r: Result<(Value, Store)>)
    requires Valid(S, st) && f < |st| && WF(S, e) && Plain(e)
    ensures Produced(st, r)
    decreases fuel, 0
  {
    GrowsRefl(st);
    if fuel == 0 then Fail(OutOfFuel)
    else match e
      case Int(_) => Ok((e, st))
      case Double(_) => Ok((e, st))
      case Str(_) => Ok((e, st))
      case Bool(_) => Ok((e, st))
      case Symbol(name) =>
        var v :- LookUp(st, f, name);
        LookUpOk(S, st, f, name);
        Ok((v, st))
      case Cons(head, args) => EvalForm(fuel - 1, head, args, f, st)
      case _ => Ok((Null, st))
  }

  /**
   * A list: a special form's name selects its evaluator (quote gives back
   * its operand list); any other head, symbol or not, is applied.
   */
  function EvalForm(fuel: nat, head: Value, args: Value, f: nat, st: Store): (r: Result<(Value, Store)>)
    requires Valid(S, st) && f < |st| && WF(S, Cons(head, args)) && Plain(head) && Plain(args)
    ensures Produced(st, r)
    decreases fuel, 6
  {
    if head == Symbol("if") then EvalIf(fuel, args, f, st)
    else if head == Symbol("let") then EvalLet(fuel, args, f, st)
    else if head == Symbol("quote") then
      if !args.Cons? || !args.cdr.Null? then Fail(QuoteArity)
      else
        PlainOk(S, args, |st|);
        GrowsRefl(st);
        Ok((args, st))
    else if head == Symbol("define") then EvalDefine(fuel, args, f, st)
    else if head == Symbol("lambda") then
      var c :- EvalLambda(S, args, f, |st|);
      GrowsRefl(st);
      Ok((c, st))
    else EvalCall(fuel, head, args, f, st)
  }

  /**
   * An application: the operator first, then the arguments left to right,
   * collected in reverse and reversed back; then apply.
   */
  function EvalCall(fuel: nat, head: Value, args: Value, f: nat, st: Store): (r: Result<(Value, Store)>)
    requires Valid(S, st) && f < |st| && WF(S, head) && Plain(head)
    requires IsList(args) && WFList(S, args) && Plain(args)
    ensures Produced(st, r)
    decreases fuel, 5
  {
    var (op, st1) :- Eval(fuel, head, f, st);
    EvalOperands(fuel, head, op, args, f, st, st1)
  }

  /** The rest of an application, once the operator is evaluated: the operands, then apply. */
  function EvalOperands(fuel: nat, head: Value, op: Value, args: Value, f: nat, st: Store, st1: Store): (r: Result<(Value, Store)>)
    requires Valid(S, st) && Valid(S, st1) && Grows(st, st1) && f < |st| && ValueOk(S, op, |st1|)
    requires IsList(args) && WFList(S, args) && Plain(args)
    ensures Produced(st, r)
    decreases fuel, 4
  {
    var (rev, st2) :- EvalEach(fuel, args, f, st1, Null);
    ValueOkMono(S, op, |st1|, |st2|);
    GrowsTrans(st, st1, st2);
    ReverseListOk(S, rev, |st2|);
    var r := Apply(fuel, op, ReverseList(rev), st2);
    if r.Ok? then GrowsTrans(st, st2, r.value.1); r else r
  }

  /**
   * evalEach: evaluates each argument in turn, consing each value onto the
   * list collected so far, so the values come out last first.
   */
  function EvalEach(fuel: nat, args: Value, f: nat, st: Store, acc: Value): (r: Result<(Value, Store)>)
    requires Valid(S, st) && f < |st| && IsList(args) && WFList(S, args) && Plain(args)
    requires IsList(acc) && ValueOk(S, acc, |st|)
    ensures Produced(st, r)
    ensures r.Ok? ==> IsList(r.value.0) && |Elems(r.value.0)| == |Elems(args)| + |Elems(acc)|
    decreases fuel, 1, args
  {
    if args.Null? then
      GrowsRefl(st);
      Ok((acc, st))
    else
      var (v, st1) :- Eval(fuel, args.car, f, st);
      ValueOkMono(S, acc, |st|, |st1|);
      var (vs, st2) :- EvalEach(fuel, args.cdr, f, st1, Cons(v, acc));
      GrowsTrans(st, st1, st2);
      Ok((vs, st2))
  }

  /**
   * apply: only a closure can be applied; it gets a new frame under the
   * frame it captured, its parameters bound to the arguments, and its body
   * evaluated there.
   */
  function Apply(fuel: nat, op: Value, args: Value, st: Store): (r: Result<(Value, Store)>)
    requires Valid(S, st) && ValueOk(S, op, |st|) && IsList(args) && ValueOk(S, args, |st|)
    ensures Produced(st, r)
    decreases fuel, 3
  {
    if !op.Closure? then Fail(NotAFunction)
    else
      var (st1, g) := MakeFrame(st, Some(op.env));
      ValidMakeFrame(S, st, Some(op.env));
      ValueOkMono(S, args, |st|, |st1|);
      var st2 :- BindParams(S, st1, g, op.params, args);
      var (v, st3) :- EvalBody(fuel, op.body, g, st2);
      GrowsTrans(st, st1, st2);
      GrowsTrans(st, st2, st3);
      Ok((v, st3))
  }

  /**
   * A body: each expression in turn in the same frame; the value is the
   * last one's. Closures and let evaluate their bodies so.
   */
  function EvalBody(fuel: nat, body: Value, g: nat, st: Store): (r: Result<(Value, Store)>)
    requires Valid(S, st) && g < |st| && IsList(body) && body.Cons? && WFList(S, body) && Plain(body)
    ensures Produced(st, r)
    decreases fuel, 1, body
  {
    var (v, st1) :- Eval(fuel, body.car, g, st);
    if body.cdr.Null? then Ok((v, st1))
    else
      var (w, st2) :- EvalBody(fuel, body.cdr, g, st1);
      GrowsTrans(st, st1, st2);
      Ok((w, st2))
  }

  /**
   * evalIf: exactly three operands; the test must give a boolean; then
   * exactly one of the branches is evaluated.
   */
  function EvalIf(fuel: nat, args: Value, f: nat, st: Store): (r: Result<(Value, Store)>)
    requires Valid(S, st) && f < |st| && IsList(args) && FormWF(S, "if", args) && Plain(args)
    ensures Produced(st, r)
    decreases fuel, 2
  {
    assert "if" != "quote";
    assert WFList(S, args);
    assert IsList(args.cdr);
    if args.cdr.Null? then Fail(IfArity)
    else
      assert IsList(args.cdr.cdr);
      if args.cdr.cdr.Null? || !args.cdr.cdr.cdr.Null? then Fail(IfArity)
      else
        assert WFList(S, args.cdr) && WFList(S, args.cdr.cdr) && Plain(args.cdr) && Plain(args.cdr.cdr);
        var (c, st1) :- Eval(fuel, args.car, f, st);
        if !c.Bool? then Fail(IfNotBoolean)
        else
          var (v, st2) :- Eval(fuel, if c.b then args.cdr.car else args.cdr.cdr.car, f, st1);
          GrowsTrans(st, st1, st2);
          Ok((v, st2))
  }

  /**
   * evalLet: a binding list and a body; each init is evaluated in the
   * enclosing frame and bound in a new frame under it, then the body is
   * evaluated in the new frame.
   */
  function EvalLet(fuel: nat, args: Value, f: nat, st: Store): (r: Result<(Value, Store)>)
    requires Valid(S, st) && f < |st| && IsList(args) && FormWF(S, "let", args) && Plain(args)
    ensures Produced(st, r)
    decreases fuel, 2
  {
    if args.Null? || args.cdr.Null? then Fail(LetArity)
    else
      assert IsList(args.cdr);
      var (st1, g) := MakeFrame(st, Some(f));
      if !args.car.Cons? && !args.car.Null? then Fail(LetBadBinding)
      else
        ValidMakeFrame(S, st, Some(f));
        var st2 :- LetBindings(fuel, args.car, f, g, st1);
        var (v, st3) :- EvalBody(fuel, args.cdr, g, st2);
        GrowsTrans(st, st1, st2);
        GrowsTrans(st, st2, st3);
        Ok((v, st3))
  }

  /**
   * evalLet's binding loop: each binding must be a list; its init is
   * evaluated in frame f, then its name bound in frame g.
   */
  function LetBindings(fuel: nat, bl: Value, f: nat, g: nat, st: Store): (r: Result<Store>)
    requires Valid(S, st) && f < |st| && g < |st| && BindingsWF(S, bl) && Plain(bl)
    ensures r.Ok? ==> Valid(S, r.value) && Grows(st, r.value)
    decreases fuel, 1, bl
  {
    if bl.Null? then
      GrowsRefl(st);
      Ok(st)
    else if !bl.Cons? || !bl.car.Cons? then Fail(LetBadBinding)
    else
      assert Plain(bl.car) && Plain(bl.car.cdr);
      var (v, st1) :- Eval(fuel, bl.car.cdr.car, f, st);
      var st2 :- WithBinding(st1, g, bl.car.car, v);
      ValidWithBinding(S, st1, g, bl.car.car, v);
      var st3 :- LetBindings(fuel, bl.cdr, f, g, st2);
      GrowsTrans(st, st1, st2);
      GrowsTrans(st, st2, st3);
      Ok(st3)
  }

  /**
   * evalDefine: exactly a symbol and an expression; the value is bound in
   * the current frame; the result is VOID.
   */
  function EvalDefine(fuel: nat, args: Value, f: nat, st: Store): (r: Result<(Value, Store)>)
    requires Valid(S, st) && f < |st| && IsList(args) && FormWF(S, "define", args) && Plain(args)
    ensures Produced(st, r)
    decreases fuel, 2
  {
    if args.Null? || args.cdr.Null? then Fail(DefineArity)
    else
      assert IsList(args.cdr);
      if !args.cdr.cdr.Null? then Fail(DefineArity)
      else if !args.car.Symbol? then Fail(DefineNonVariable)
      else
        assert Plain(args.cdr);
        var (v, st1) :- Eval(fuel, args.cdr.car, f, st);
        var st2 :- WithBinding(st1, f, args.car, v);
        ValidWithBinding(S, st1, f, args.car, v);
        GrowsTrans(st, st1, st2);
        Ok((Void, st2))
  }

  // ---------------------------------------------------------------------
  // The top-level loop

  /**
   * interpret's loop: each top-level expression is evaluated in the global
   * frame, in order; an error ends the program (texit) after the results of
   * the expressions before it.
   */
  function EvalForms(fuel: nat, forms: Value, st: Store): (r: Outcome)
    requires Valid(S, st) && 0 < |st| && IsList(forms) && WFList(S, forms) && Plain(forms)
    ensures |r.results| <= |Elems(forms)|
    ensures r.error.None? <==> |r.results| == |Elems(forms)|
    decreases forms
  {
    if forms.Null? then Outcome([], None)
    else match Eval(fuel, forms.car, 0, st)
      case Fail(e) => Outcome([], Some(e))
      case Ok((v, st1)) =>
        var rest := EvalForms(fuel, forms.cdr, st1);
        Outcome([v] + rest.results, rest.error)
  }

  /** interpret: a global frame with no bindings, then the loop; every expression gets the same fuel. */
  function Interpret(fuel: nat, forms: Value): (r: Outcome)
    requires IsList(forms) && WFList(S, forms) && Plain(forms)
    ensures r.error.None? <==> |r.results| == |Elems(forms)|
  {
    var (st, _) := MakeFrame([], None);
    assert Valid(S, st);
    EvalForms(fuel, forms, st)
  }

  /** A symbol at top level is unbound unless an earlier define bound it: the global frame starts empty. */
  lemma GlobalSymbolUnbound(fuel: nat, x: string)
    requires 0 < fuel
    ensures WFList(S, FromSeq([Symbol(x)])) && Plain(FromSeq([Symbol(x)]))
    ensures Interpret(fuel, FromSeq([Symbol(x)])) == Outcome([], Some(Unbound(x)))
  {
    FromSeqWF(S, [Symbol(x)]);
    FromSeqCons(Symbol(x), []);
    assert [Symbol(x)] == [Symbol(x)] + [];
    var st := MakeFrame([], None).0;
    assert !BoundIn(st[0].bindings, x);
  }

  // ---------------------------------------------------------------------
  // What the special forms mean

  /**
   * (if c t e): the test is evaluated first; an error in it is the error of
   * the whole; a non-boolean is an error; otherwise exactly the chosen
   * branch is evaluated, from the store the test left.
   */
  lemma IfChooses(fuel: nat, c: Value, t: Value, e: Value, f: nat, st: Store)
    requires Valid(S, st) && f < |st|
    requires WF(S, c) && WF(S, t) && WF(S, e) && Plain(c) && Plain(t) && Plain(e)
    ensures WF(S, Form("if", [c, t, e])) && Plain(Form("if", [c, t, e]))
    ensures Eval(fuel, c, f, st).Fail? ==>
      Eval(fuel + 1, Form("if", [c, t, e]), f, st) == Fail(Eval(fuel, c, f, st).error)
    ensures Eval(fuel, c, f, st).Ok? && !Eval(fuel, c, f, st).value.0.Bool? ==>
      Eval(fuel + 1, Form("if", [c, t, e]), f, st) == Fail(IfNotBoolean)
    ensures Eval(fuel, c, f, st).Ok? && Eval(fuel, c, f, st).value.0.Bool? ==>
      var (b, st1) := Eval(fuel, c, f, st).value;
      Eval(fuel + 1, Form("if", [c, t, e]), f, st) == Eval(fuel, if b.b then t else e, f, st1)
  {
    var args := FromSeq([c, t, e]);
    FromSeqWF(S, [c, t, e]);
    FromSeqCons(c, [t, e]);
    FromSeqCons(t, [e]);
    FromSeqCons(e, []);
    assert [c, t, e] == [c] + [t, e] && [t, e] == [t] + [e] && [e] == [e] + [];
    assert args == Cons(c, Cons(t, Cons(e, Null)));
    assert IsList(args) && FormWF(S, "if", args);
    assert Eval(fuel + 1, Form("if", [c, t, e]), f, st) == EvalForm(fuel, Symbol("if"), args, f, st);
    assert EvalForm(fuel, Symbol("if"), args, f, st) == EvalIf(fuel, args, f, st);
    assert "if" != "quote";
  }

  /** (if c t) and (if c t e x) are errors, before anything is evaluated. */
  lemma IfNeedsThreeOperands(fuel: nat, c: Value, t: Value, x: seq<Value>, f: nat, st: Store)
    requires Valid(S, st) && f < |st| && WF(S, c) && WF(S, t) && Plain(c) && Plain(t)
    requires forall i | 0 <= i < |x| :: WF(S, x[i]) && Plain(x[i])
    requires |x| != 1
    ensures WF(S, Form("if", [c, t] + x)) && Plain(Form("if", [c, t] + x))
    ensures Eval(fuel + 1, Form("if", [c, t] + x), f, st) == Fail(IfArity)
  {
    var ops := [c, t] + x;
    FromSeqWF(S, ops);
    var args := FromSeq(ops);
    assert "if" != "quote";
    FromSeqCons(c, [t] + x);
    FromSeqCons(t, x);
    assert ops == [c] + ([t] + x);
    assert args == Cons(c, Cons(t, FromSeq(x)));
    if x != [] {
      FromSeqCons(x[0], x[1..]);
      assert x == [x[0]] + x[1..];
      assert FromSeq(x[1..]).Cons?;
    }
    assert IsList(args) && FormWF(S, "if", args);
    assert Eval(fuel + 1, Form("if", ops), f, st) == EvalForm(fuel, Symbol("if"), args, f, st);
    assert EvalForm(fuel, Symbol("if"), args, f, st) == EvalIf(fuel, args, f, st);
  }

  /**
   * define with other than two operands, or with a first operand that is
   * not a symbol, is an error before anything is evaluated.
   */
  lemma DefineRejects(fuel: nat, operands: seq<Value>, f: nat, st: Store)
    requires Valid(S, st) && f < |st|
    requires forall i | 0 <= i < |operands| :: WF(S, operands[i]) && Plain(operands[i])
    requires |operands| != 2 || !operands[0].Symbol?
    ensures WF(S, Form("define", operands)) && Plain(Form("define", operands))
    ensures Eval(fuel + 1, Form("define", operands), f, st) ==
      Fail(if |operands| != 2 then DefineArity else DefineNonVariable)
  {
    FromSeqWF(S, operands);
    var args := FromSeq(operands);
    assert "define" != "quote" && "define" != "if" && "define" != "let" && "define" != "letrec";
    if |operands| >= 1 {
      FromSeqCons(operands[0], operands[1..]);
      assert operands == [operands[0]] + operands[1..];
      if |operands| >= 2 {
        FromSeqCons(operands[1], operands[2..]);
        assert operands[1..] == [operands[1]] + operands[2..];
        if |operands| >= 3 {
          FromSeqCons(operands[2], operands[3..]);
          assert operands[2..] == [operands[2]] + operands[3..];
        }
      }
    }
    assert IsList(args) && FormWF(S, "define", args);
    var form := Form("define", operands);
    assert form == Cons(Symbol("define"), args);
    assert Eval(fuel + 1, form, f, st) == EvalForm(fuel, Symbol("define"), args, f, st);
    assert EvalForm(fuel, Symbol("define"), args, f, st) == EvalDefine(fuel, args, f, st);
  }

  /** (quote d) evaluates to its operand list (d), not to d, and changes nothing. */
  lemma QuoteReturnsOperandList(fuel: nat, d: Value, f: nat, st: Store)
    requires Valid(S, st) && f < |st| && Plain(d)
    ensures WF(S, Form("quote", [d])) && Plain(Form("quote", [d]))
    ensures Eval(fuel + 1, Form("quote", [d]), f, st) == Ok((Cons(d, Null), st))
  {
    var args := FromSeq([d]);
    assert args == Cons(d, Null);
  }

  /** quote with no operand or with more than one is an error. */
  lemma QuoteNeedsOneOperand(fuel: nat, operands: seq<Value>, f: nat, st: Store)
    requires Valid(S, st) && f < |st| && |operands| != 1
    requires forall i | 0 <= i < |operands| :: Plain(operands[i])
    ensures WF(S, Form("quote", operands)) && Plain(Form("quote", operands))
    ensures Eval(fuel + 1, Form("quote", operands), f, st) == Fail(QuoteArity)
  {
    PlainFromSeq(operands);
    if operands != [] {
      FromSeqCons(operands[0], operands[1..]);
      assert operands == [operands[0]] + operands[1..];
      FromSeqCons(operands[1], operands[2..]);
      assert operands[1..] == [operands[1]] + operands[2..];
    }
    assert "quote" != "if" && "quote" != "let" && "quote" != "letrec";
  }

  /**
   * (define x e): e is evaluated in the current frame; defining a name the
   * current frame already binds is an error; otherwise the result is VOID,
   * x now refers to e's value from that frame, and no other name changes.
   */
  lemma DefineThenLookUp(fuel: nat, x: string, e: Value, f: nat, st: Store, h: nat, y: string)
    requires Valid(S, st) && f < |st| && h < |st| && WF(S, e) && Plain(e)
    ensures WF(S, Form("define", [Symbol(x), e])) && Plain(Form("define", [Symbol(x), e]))
    ensures Eval(fuel, e, f, st).Fail? ==>
      Eval(fuel + 1, Form("define", [Symbol(x), e]), f, st) == Fail(Eval(fuel, e, f, st).error)
    ensures Eval(fuel, e, f, st).Ok? ==>
      var (v, st1) := Eval(fuel, e, f, st).value;
      var r := Eval(fuel + 1, Form("define", [Symbol(x), e]), f, st);
      (r.Fail? <==> BoundIn(st1[f].bindings, x)) &&
      (r.Fail? ==> r.error == AlreadyBound(x)) &&
      (r.Ok? ==> r.value.0 == Void && LookUp(r.value.1, f, x) == Ok(v)) &&
      (r.Ok? && y != x ==> LookUp(r.value.1, h, y) == LookUp(st1, h, y))
  {
    NamedFormWF(S, "define", x, e);
    var form := Form("define", [Symbol(x), e]);
    var args := form.cdr;
    assert form == Cons(Symbol("define"), args);
    assert Eval(fuel + 1, form, f, st) == EvalForm(fuel, Symbol("define"), args, f, st);
    assert EvalForm(fuel, Symbol("define"), args, f, st) == EvalDefine(fuel, args, f, st) by {
      assert "define" != "if" && "define" != "let" && "define" != "quote";
    }
    if Eval(fuel, e, f, st).Ok? {
      var (v, st1) := Eval(fuel, e, f, st).value;
      if WithBinding(st1, f, Symbol(x), v).Ok? {
        LookUpWithBinding(st1, f, Symbol(x), v, h, y);
      }
    }
  }

  /**
   * (let ((x e)) x): e is evaluated in the enclosing frame (after the new
   * frame is made), its value bound to x in the new frame, and the body
   * reads it back from there.
   */
  lemma LetInitInOuterFrame(fuel: nat, x: string, e: Value, f: nat, st: Store)
    requires Valid(S, st) && f < |st| && WF(S, e) && Plain(e) && 0 < fuel
    ensures WF(S, OneBinding("let", x, e)) && Plain(OneBinding("let", x, e))
    ensures Valid(S, MakeFrame(st, Some(f)).0)
    ensures var st1 := MakeFrame(st, Some(f)).0;
      Eval(fuel, e, f, st1).Fail? ==>
        Eval(fuel + 1, OneBinding("let", x, e), f, st) == Fail(Eval(fuel, e, f, st1).error)
    ensures var st1 := MakeFrame(st, Some(f)).0;
      Eval(fuel, e, f, st1).Ok? ==>
        var (v, st2) := Eval(fuel, e, f, st1).value;
        var r := Eval(fuel + 1, OneBinding("let", x, e), f, st);
        (r.Ok? <==> !BoundIn(st2[|st|].bindings, x)) && (r.Ok? ==> r.value.0 == v)
  {
    OneBindingWF(S, "let", x, e);
    var form := OneBinding("let", x, e);
    var args := form.cdr;
    assert form == Cons(Symbol("let"), args);
    assert Eval(fuel + 1, form, f, st) == EvalForm(fuel, Symbol("let"), args, f, st);
    assert EvalForm(fuel, Symbol("let"), args, f, st) == EvalLet(fuel, args, f, st) by {
      assert "let" != "if";
    }
    LetOne(fuel, x, e, f, st);
  }

  /** evalLet on the binding list ((x e)) and the body x. */
  lemma LetOne(fuel: nat, x: string, e: Value, f: nat, st: Store)
    requires Valid(S, st) && f < |st| && WF(S, e) && Plain(e) && 0 < fuel
    ensures var args := Cons(Cons(Cons(Symbol(x), Cons(e, Null)), Null), Cons(Symbol(x), Null));
      IsList(args) && FormWF(S, "let", args) && Plain(args)
    ensures Valid(S, MakeFrame(st, Some(f)).0)
    ensures var st1 := MakeFrame(st, Some(f)).0;
      var args := Cons(Cons(Cons(Symbol(x), Cons(e, Null)), Null), Cons(Symbol(x), Null));
      Eval(fuel, e, f, st1).Fail? ==> EvalLet(fuel, args, f, st) == Fail(Eval(fuel, e, f, st1).error)
    ensures var st1 := MakeFrame(st, Some(f)).0;
      var args := Cons(Cons(Cons(Symbol(x), Cons(e, Null)), Null), Cons(Symbol(x), Null));
      Eval(fuel, e, f, st1).Ok? ==>
        var (v, st2) := Eval(fuel, e, f, st1).value;
        var r := EvalLet(fuel, args, f, st);
        (r.Ok? <==> !BoundIn(st2[|st|].bindings, x)) && (r.Ok? ==> r.value.0 == v)
  {
    OneBindingWF(S, "let", x, e);
    var args := Cons(Cons(Cons(Symbol(x), Cons(e, Null)), Null), Cons(Symbol(x), Null));
    LetSteps(fuel, args, f, st);
    var (st1, g) := MakeFrame(st, Some(f));
    LetBindingsOne(fuel, x, e, f, g, st1);
    if Eval(fuel, e, f, st1).Ok? {
      var (v, st2) := Eval(fuel, e, f, st1).value;
      var w := WithBinding(st2, g, Symbol(x), v);
      if w.Ok? {
        LookUpWithBinding(st2, g, Symbol(x), v, g, x);
        ValidWithBinding(S, st2, g, Symbol(x), v);
        BodyOfSymbol(fuel, x, g, w.value);
      }
    }
  }

  /** evalLet on a binding list and a body: a new frame, the binding loop in it, then the body. */
  lemma LetSteps(fuel: nat, args: Value, f: nat, st: Store)
    requires Valid(S, st) && f < |st| && IsList(args) && FormWF(S, "let", args) && Plain(args)
    requires args.Cons? && args.cdr.Cons? && args.car.Cons?
    ensures Valid(S, MakeFrame(st, Some(f)).0)
    ensures BindingsWF(S, args.car) && Plain(args.car) && Plain(args.cdr) && IsList(args.cdr) && WFList(S, args.cdr)
    ensures var r := LetBindings(fuel, args.car, f, |st|, MakeFrame(st, Some(f)).0);
      EvalLet(fuel, args, f, st) == if r.Fail? then Fail(r.error) else EvalBody(fuel, args.cdr, |st|, r.value)
  {
    ValidMakeFrame(S, st, Some(f));
    var r := LetBindings(fuel, args.car, f, |st|, MakeFrame(st, Some(f)).0);
    if r.Ok? {
      var b := EvalBody(fuel, args.cdr, |st|, r.value);
      if b.Ok? {
        assert b == Ok((b.value.0, b.value.1));
      }
    }
  }

  /** evalLet's binding loop on the one binding (x e): e's value, then addBinding in frame g. */
  lemma LetBindingsOne(fuel: nat, x: string, e: Value, f: nat, g: nat, st: Store)
    requires Valid(S, st) && f < |st| && g < |st| && WF(S, e) && Plain(e)
    ensures var bl := Cons(Cons(Symbol(x), Cons(e, Null)), Null);
      BindingsWF(S, bl) && Plain(bl)
    ensures var bl := Cons(Cons(Symbol(x), Cons(e, Null)), Null);
      Eval(fuel, e, f, st).Fail? ==> LetBindings(fuel, bl, f, g, st) == Fail(Eval(fuel, e, f, st).error)
    ensures var bl := Cons(Cons(Symbol(x), Cons(e, Null)), Null);
      Eval(fuel, e, f, st).Ok? ==>
        var (v, st2) := Eval(fuel, e, f, st).value;
        LetBindings(fuel, bl, f, g, st) == WithBinding(st2, g, Symbol(x), v)
  {
    var b := Cons(Symbol(x), Cons(e, Null));
    var bl := Cons(b, Null);
    assert Plain(Null) && Plain(Symbol(x)) && Plain(Cons(e, Null)) && Plain(b);
    assert bl.car == b && b.car == Symbol(x) && b.cdr.car == e;
    if Eval(fuel, e, f, st).Ok? {
      var (v, st2) := Eval(fuel, e, f, st).value;
      var w := WithBinding(st2, g, Symbol(x), v);
      if w.Ok? {
        ValidWithBinding(S, st2, g, Symbol(x), v);
        assert LetBindings(fuel, Null, f, g, w.value) == Ok(w.value);
      }
    }
  }

  /**
   * let's binding loop, on any binding list: it succeeds only on a list of
   * pairs whose names are distinct symbols, none bound in the new frame
   * before, and each is bound there afterwards. So a repeated name, or one
   * already bound in the frame, makes let fail.
   */
  lemma {:induction false} LetBindsDistinctNames(fuel: nat, bl: Value, f: nat, g: nat, st: Store)
    requires Valid(S, st) && f < |st| && g < |st| && BindingsWF(S, bl) && Plain(bl)
    ensures var r := LetBindings(fuel, bl, f, g, st);
      r.Ok? ==>
        PairList(bl) && DistinctSymbols(BindingNames(bl)) &&
        forall i | 0 <= i < |BindingNames(bl)| ::
          !BoundIn(st[g].bindings, BindingNames(bl)[i].name) && BoundIn(r.value[g].bindings, BindingNames(bl)[i].name)
    decreases bl
  {
    var r := LetBindings(fuel, bl, f, g, st);
    if r.Ok? && bl.Cons? {
      assert Plain(bl.car) && Plain(bl.car.cdr);
      var (v, st1) := Eval(fuel, bl.car.cdr.car, f, st).value;
      var st2 := WithBinding(st1, g, bl.car.car, v).value;
      ValidWithBinding(S, st1, g, bl.car.car, v);
      LetBindsDistinctNames(fuel, bl.cdr, f, g, st2);
      assert r == LetBindings(fuel, bl.cdr, f, g, st2);
      assert forall y :: BoundIn(st[g].bindings, y) ==> BoundIn(st1[g].bindings, y);
      assert forall y :: BoundIn(st2[g].bindings, y) ==> BoundIn(r.value[g].bindings, y);
      FreshNamesCons(bl, v, st[g].bindings, st1[g].bindings, r.value[g].bindings);
    }
  }

  /** A body that is one symbol gives the value that symbol is bound to. */
  lemma BodyOfSymbol(fuel: nat, x: string, g: nat, st: Store)
    requires Valid(S, st) && g < |st| && 0 < fuel && LookUp(st, g, x).Ok?
    ensures WFList(S, Cons(Symbol(x), Null)) && Plain(Cons(Symbol(x), Null))
    ensures EvalBody(fuel, Cons(Symbol(x), Null), g, st) == Ok((LookUp(st, g, x).value, st))
  {
    assert WF(S, Symbol(x)) && Plain(Symbol(x));
    assert Eval(fuel, Symbol(x), g, st) == Ok((LookUp(st, g, x).value, st));
  }

  // ---------------------------------------------------------------------
  // Application

  /** apply rejects every operator that is not a closure: this stage has no primitives. */
  lemma ApplyNonClosure(fuel: nat, op: Value, args: Value, st: Store)
    requires Valid(S, st) && ValueOk(S, op, |st|) && IsList(args) && ValueOk(S, args, |st|)
    requires !op.Closure?
    ensures Apply(fuel, op, args, st) == Fail(NotAFunction)
  {
  }

  /**
   * Applying a closure whose parameters are distinct symbols: a wrong
   * argument count is an error; otherwise the body is evaluated in a new
   * frame under the captured one, where each parameter refers to its
   * argument and every other name to what it refers to from the frame the
   * closure captured (static scope).
   */
  lemma ApplyClosure(fuel: nat, c: Value, args: Value, st: Store, y: string)
    requires Valid(S, st) && c.Closure? && ValueOk(S, c, |st|) && IsList(args) && ValueOk(S, args, |st|)
    requires DistinctSymbols(Elems(c.params))
    ensures Valid(S, MakeFrame(st, Some(c.env)).0) && ValueOk(S, args, |st| + 1)
    ensures |Elems(c.params)| < |Elems(args)| ==> Apply(fuel, c, args, st) == Fail(TooManyArgs)
    ensures |Elems(c.params)| > |Elems(args)| ==> Apply(fuel, c, args, st) == Fail(TooFewArgs)
    ensures |Elems(c.params)| == |Elems(args)| ==>
      var b := BindParams(S, MakeFrame(st, Some(c.env)).0, |st|, c.params, args);
      b.Ok? &&
      (forall i | 0 <= i < |Elems(args)| :: LookUp(b.value, |st|, Elems(c.params)[i].name) == Ok(Elems(args)[i])) &&
      ((forall i | 0 <= i < |Elems(args)| :: Elems(c.params)[i].name != y) ==>
        LookUp(b.value, |st|, y) == LookUp(st, c.env, y)) &&
      Apply(fuel, c, args, st) == EvalBody(fuel, c.body, |st|, b.value)
  {
    var (st1, g) := MakeFrame(st, Some(c.env));
    ValidMakeFrame(S, st, Some(c.env));
    ValueOkMono(S, args, |st|, |st1|);
    BindParamsMeans(S, st1, g, c.params, args);
    if |Elems(c.params)| == |Elems(args)| {
      if forall i | 0 <= i < |Elems(args)| :: Elems(c.params)[i].name != y {
        BindParamsKeeps(S, st1, g, c.params, args, g, y);
        LookUpMakeFrame(st, c.env, y);
      }
    }
  }

  /**
   * A number in operator position is not rejected before the call: it is
   * evaluated, the arguments after it, and only apply finds that it is not
   * a closure. (This is the model's symbol-heads-only reading: the C
   * compares the number's bits as a string first.)
   */
  lemma NumberOperatorNotAFunction(fuel: nat, n: int, f: nat, st: Store)
    requires Valid(S, st) && f < |st| && 0 < fuel
    ensures WF(S, Cons(Int(n), Null)) && Plain(Cons(Int(n), Null))
    ensures Eval(fuel + 1, Cons(Int(n), Null), f, st) == Fail(NotAFunction)
  {
    assert IsList(Null) && WFList(S, Null) && Plain(Null) && WF(S, Int(n)) && Plain(Int(n));
    assert WF(S, Cons(Int(n), Null)) && Plain(Cons(Int(n), Null));
    assert Eval(fuel + 1, Cons(Int(n), Null), f, st) == EvalForm(fuel, Int(n), Null, f, st);
    assert EvalForm(fuel, Int(n), Null, f, st) == EvalCall(fuel, Int(n), Null, f, st);
    assert Eval(fuel, Int(n), f, st) == Ok((Int(n), st));
    CallOperator(fuel, Int(n), Null, f, st, Int(n), st);
    assert EvalEach(fuel, Null, f, st, Null) == Ok((Null, st));
    OperandsApply(fuel, Int(n), Int(n), Null, f, st, st, Null, st);
    assert Elems(Null) == [] && Reversed<Value>([]) == [];
    assert ReverseList(Null) == Null;
    assert Apply(fuel, Int(n), Null, st) == Fail(NotAFunction);
  }

  /**
   * Numbers, strings and Booleans evaluate to themselves; a symbol to the
   * value of the binding it refers to, and past the root it is unbound.
   */
  lemma AtomsEvaluate(fuel: nat, v: Value, x: string, f: nat, st: Store)
    requires Valid(S, st) && f < |st| && SelfEvaluating(v)
    ensures WF(S, v) && Plain(v) && WF(S, Symbol(x)) && Plain(Symbol(x))
    ensures Eval(fuel + 1, v, f, st) == Ok((v, st))
    ensures LookUp(st, f, x).Ok? ==> Eval(fuel + 1, Symbol(x), f, st) == Ok((LookUp(st, f, x).value, st))
    ensures LookUp(st, f, x).Fail? ==> Eval(fuel + 1, Symbol(x), f, st) == Fail(Unbound(x))
  {
  }

  /**
   * The expressions of a list evaluated front to back in frame f, each from
   * the store the one before it left: their values in source order, or the
   * first error. evalEach's accumulating walk and the body walk of
   * let and apply are measured against it.
   */
  function EvalInOrder(fuel: nat, es: Value, f: nat, st: Store): (r: Result<(seq<Value>, Store)>)
    requires Valid(S, st) && f < |st| && IsList(es) && WFList(S, es) && Plain(es)
    ensures r.Ok? ==> |r.value.0| == |Elems(es)| && Valid(S, r.value.1) && Grows(st, r.value.1)
    ensures r.Ok? ==> ElemsOk(S, r.value.0, |r.value.1|)
    decreases es
  {
    if es.Null? then
      GrowsRefl(st);
      Ok(([], st))
    else
      var (v, st1) :- Eval(fuel, es.car, f, st);
      var (vs, st2) :- EvalInOrder(fuel, es.cdr, f, st1);
      ValueOkMono(S, v, |st1|, |st2|);
      GrowsTrans(st, st1, st2);
      Ok(([v] + vs, st2))
  }

  /**
   * evalEach conses each operand's value onto the accumulator as it goes:
   * it ends with the in-order values reversed onto the accumulator, in the
   * store the last operand left, and the first error stops it.
   */
  lemma {:induction false} EvalEachInOrder(fuel: nat, args: Value, f: nat, st: Store, acc: Value)
    requires Valid(S, st) && f < |st| && IsList(args) && WFList(S, args) && Plain(args)
    requires IsList(acc) && ValueOk(S, acc, |st|)
    ensures var r := EvalInOrder(fuel, args, f, st);
      EvalEach(fuel, args, f, st, acc) ==
        if r.Fail? then Fail(r.error) else Ok((ReverseOnto(FromSeq(r.value.0), acc), r.value.1))
    decreases args
  {
    if args.Cons? && Eval(fuel, args.car, f, st).Ok? {
      var (v, st1) := Eval(fuel, args.car, f, st).value;
      ValueOkMono(S, acc, |st|, |st1|);
      EvalEachInOrder(fuel, args.cdr, f, st1, Cons(v, acc));
      EachStep(fuel, args, f, st, acc, v, st1);
    }
  }

  /** One operand of evalEach: its value goes onto the accumulator and the walk goes on. */
  lemma EachStep(fuel: nat, args: Value, f: nat, st: Store, acc: Value, v: Value, st1: Store)
    requires Valid(S, st) && f < |st| && IsList(args) && args.Cons? && WFList(S, args) && Plain(args)
    requires IsList(acc) && ValueOk(S, acc, |st|) && Eval(fuel, args.car, f, st) == Ok((v, st1))
    ensures Valid(S, st1) && ValueOk(S, Cons(v, acc), |st1|)
    ensures EvalEach(fuel, args, f, st, acc) == EvalEach(fuel, args.cdr, f, st1, Cons(v, acc))
    ensures var r := EvalInOrder(fuel, args.cdr, f, st1);
      EvalInOrder(fuel, args, f, st) == if r.Fail? then Fail(r.error) else Ok(([v] + r.value.0, r.value.1))
    ensures forall vs :: ReverseOnto(FromSeq([v] + vs), acc) == ReverseOnto(FromSeq(vs), Cons(v, acc))
  {
    ValueOkMono(S, acc, |st|, |st1|);
    InOrderStep(fuel, args, f, st, v, st1);
    forall vs ensures ReverseOnto(FromSeq([v] + vs), acc) == ReverseOnto(FromSeq(vs), Cons(v, acc)) {
      FromSeqCons(v, vs);
    }
  }

  /**
   * From the empty accumulator, evalEach's list reversed holds exactly the
   * operands' values in source order; it fails exactly when an operand
   * does, with that operand's error.
   */
  lemma OperandsInOrder(fuel: nat, args: Value, f: nat, st: Store)
    requires Valid(S, st) && f < |st| && IsList(args) && WFList(S, args) && Plain(args)
    ensures var r := EvalInOrder(fuel, args, f, st);
      var e := EvalEach(fuel, args, f, st, Null);
      (e.Fail? <==> r.Fail?) && (r.Fail? ==> e.error == r.error) &&
      (r.Ok? ==> e.value.1 == r.value.1 && Elems(ReverseList(e.value.0)) == r.value.0)
  {
    assert ValueOk(S, Null, |st|);
    EvalEachInOrder(fuel, args, f, st, Null);
    var r := EvalInOrder(fuel, args, f, st);
    if r.Ok? {
      ReverseListTwice(FromSeq(r.value.0));
    }
  }

  /**
   * A body evaluates each of its expressions in turn and gives the value of
   * the last, in the store the last left; the first error stops it.
   */
  lemma {:induction false} EvalBodyInOrder(fuel: nat, body: Value, g: nat, st: Store)
    requires Valid(S, st) && g < |st| && IsList(body) && body.Cons? && WFList(S, body) && Plain(body)
    ensures var r := EvalInOrder(fuel, body, g, st);
      EvalBody(fuel, body, g, st) ==
        if r.Fail? then Fail(r.error) else Ok((r.value.0[|r.value.0| - 1], r.value.1))
    decreases body
  {
    if Eval(fuel, body.car, g, st).Ok? {
      var (v, st1) := Eval(fuel, body.car, g, st).value;
      if body.cdr.Cons? {
        EvalBodyInOrder(fuel, body.cdr, g, st1);
      }
      BodyStep(fuel, body, g, st, v, st1);
    }
  }

  /** One expression of a body: the rest is evaluated from the store it left. */
  lemma BodyStep(fuel: nat, body: Value, g: nat, st: Store, v: Value, st1: Store)
    requires Valid(S, st) && g < |st| && IsList(body) && body.Cons? && WFList(S, body) && Plain(body)
    requires Eval(fuel, body.car, g, st) == Ok((v, st1))
    ensures Valid(S, st1)
    ensures body.cdr.Null? ==> EvalBody(fuel, body, g, st) == Ok((v, st1))
    ensures body.cdr.Cons? ==> EvalBody(fuel, body, g, st) == EvalBody(fuel, body.cdr, g, st1)
    ensures var r := EvalInOrder(fuel, body.cdr, g, st1);
      EvalInOrder(fuel, body, g, st) == if r.Fail? then Fail(r.error) else Ok(([v] + r.value.0, r.value.1))
  {
    InOrderStep(fuel, body, g, st, v, st1);
  }

  /** One expression of the in-order walk: the rest is evaluated from the store it left. */
  lemma InOrderStep(fuel: nat, es: Value, f: nat, st: Store, v: Value, st1: Store)
    requires Valid(S, st) && f < |st| && IsList(es) && es.Cons? && WFList(S, es) && Plain(es)
    requires Eval(fuel, es.car, f, st) == Ok((v, st1))
    ensures Valid(S, st1)
    ensures var r := EvalInOrder(fuel, es.cdr, f, st1);
      EvalInOrder(fuel, es, f, st) == if r.Fail? then Fail(r.error) else Ok(([v] + r.value.0, r.value.1))
  {
  }

  /** Once the operator is evaluated, an application goes on from the store it left. */
  lemma CallOperator(fuel: nat, head: Value, args: Value, f: nat, st: Store, op: Value, st1: Store)
    requires Valid(S, st) && f < |st| && WF(S, head) && Plain(head)
    requires IsList(args) && WFList(S, args) && Plain(args)
    requires Eval(fuel, head, f, st) == Ok((op, st1))
    ensures Valid(S, st1) && Grows(st, st1) && ValueOk(S, op, |st1|)
    ensures EvalCall(fuel, head, args, f, st) == EvalOperands(fuel, head, op, args, f, st, st1)
  {
  }

  /** Once the operands are evaluated, an application is apply's result. */
  lemma OperandsApply(fuel: nat, head: Value, op: Value, args: Value, f: nat, st: Store, st1: Store, rev: Value, st2: Store)
    requires Valid(S, st) && Valid(S, st1) && Grows(st, st1) && f < |st| && ValueOk(S, op, |st1|)
    requires IsList(args) && WFList(S, args) && Plain(args)
    requires EvalEach(fuel, args, f, st1, Null) == Ok((rev, st2))
    ensures Valid(S, st2) && IsList(rev) && ValueOk(S, op, |st2|) && ValueOk(S, ReverseList(rev), |st2|)
    ensures EvalOperands(fuel, head, op, args, f, st, st1) == Apply(fuel, op, ReverseList(rev), st2)
  {
    ValueOkMono(S, op, |st1|, |st2|);
    ReverseListOk(S, rev, |st2|);
  }

  /**
   * An application: once the operator is evaluated, the operands are
   * evaluated in source order from the store it left, and the operator is
   * applied to their values in source order. The first error stops it.
   */
  lemma CallPassesArgumentsInOrder(fuel: nat, head: Value, args: Value, f: nat, st: Store)
    requires Valid(S, st) && f < |st| && WF(S, head) && Plain(head)
    requires IsList(args) && WFList(S, args) && Plain(args)
    ensures Eval(fuel, head, f, st).Fail? ==> EvalCall(fuel, head, args, f, st) == Fail(Eval(fuel, head, f, st).error)
    ensures Eval(fuel, head, f, st).Ok? ==>
      var (op, st1) := Eval(fuel, head, f, st).value;
      var r := EvalInOrder(fuel, args, f, st1);
      (r.Fail? ==> EvalCall(fuel, head, args, f, st) == Fail(r.error)) &&
      (r.Ok? ==>
        ValueOk(S, op, |r.value.1|) && ValueOk(S, FromSeq(r.value.0), |r.value.1|) &&
        EvalCall(fuel, head, args, f, st) == Apply(fuel, op, FromSeq(r.value.0), r.value.1))
  {
    if Eval(fuel, head, f, st).Ok? {
      var (op, st1) := Eval(fuel, head, f, st).value;
      OperandsThenApply(fuel, head, args, f, st, op, st1);
    }
  }

  /** An application once its operator has been evaluated to op in store st1. */
  lemma OperandsThenApply(fuel: nat, head: Value, args: Value, f: nat, st: Store, op: Value, st1: Store)
    requires Valid(S, st) && f < |st| && WF(S, head) && Plain(head)
    requires IsList(args) && WFList(S, args) && Plain(args)
    requires Eval(fuel, head, f, st) == Ok((op, st1))
    ensures Valid(S, st1) && f < |st1|
    ensures var r := EvalInOrder(fuel, args, f, st1);
      (r.Fail? ==> EvalCall(fuel, head, args, f, st) == Fail(r.error)) &&
      (r.Ok? ==>
        ValueOk(S, op, |r.value.1|) && ValueOk(S, FromSeq(r.value.0), |r.value.1|) &&
        EvalCall(fuel, head, args, f, st) == Apply(fuel, op, FromSeq(r.value.0), r.value.1))
  {
    CallOperator(fuel, head, args, f, st, op, st1);
    assert ValueOk(S, Null, |st1|);
    EvalEachInOrder(fuel, args, f, st1, Null);
    var r := EvalInOrder(fuel, args, f, st1);
    if r.Ok? {
      var vs := FromSeq(r.value.0);
      ElemsOfOk(S, vs, |r.value.1|);
      ReverseListTwice(vs);
      OperandsApply(fuel, head, op, args, f, st, st1, ReverseList(vs), r.value.1);
    }
  }
}
