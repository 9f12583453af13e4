// The evaluator of quote-main/interpreter.c: literals, symbols, and the
// special forms if, let and quote; any other list is an unrecognised
// special form. There are no closures, so eval recurses on the parse tree
// alone and needs no fuel, and an evaluation never changes a frame that
// existed before it: it only adds the frames of the lets it runs.

module QuoteInterpreter {
  import opened Values
  import opened Environments
  import opened Forms

  const S: Stage := QuoteStage

  /** st' keeps every frame of st as it was and may add frames after them. */
  predicate Extends(st: Store, st': Store) {
    |st| <= |st'| && st'[..|st|] == st
  }

  lemma ExtendsTrans(a: Store, b: Store, c: Store)
    requires Extends(a, b) && Extends(b, c)
    ensures Extends(a, c)
  {
    assert c[..|a|] == c[..|b|][..|a|];
  }

  /** A successful evaluation: a valid store extending the old one, and a usable value. */
  predicate Produced(st: Store, r: Result<(Value, Store)>) {
    r.Ok? ==> Valid(S, r.value.1) && Extends(st, r.value.1) && ValueOk(S, r.value.0, |r.value.1|)
  }

  /**
   * eval: literals evaluate to themselves, a symbol to its binding's value,
   * a list to the special form its head names; any other tree to the empty
   * list.
   */
  function Eval(e: Value, f: nat, st: Store): (r: Result<(Value, Store)>)
    requires Valid(S, st) && f < |st| && WF(S, e) && Plain(e)
    ensures Produced(st, r)
    decreases e, 2
  {
    assert st[..|st|] == st;
    match e
      case Int(_) => Ok((e, st))
      case Double(_) => Ok((e, st))
      case Str(_) => Ok((e, st))
      case Bool(_) => Ok((e, st))
      case Symbol(name) =>
        var v :- LookUp(st, f, name);
        LookUpOk(S, st, f, name);
        Ok((v, st))
      case Cons(head, args) => EvalForm(head, args, f, st)
      case _ => Ok((Null, st))
  }

  /**
   * A list: if, let and quote by the head's name; quote gives back its
   * operand list itself, not the operand; any other list is an error.
   */
  function EvalForm(head: Value, args: Value, f: nat, st: Store): (r: Result<(Value, Store)>)
    requires Valid(S, st) && f < |st| && WF(S, Cons(head, args)) && Plain(args)
    ensures Produced(st, r)
    decreases args, 1
  {
    assert st[..|st|] == st;
    if head == Symbol("if") then EvalIf(args, f, st)
    else if head == Symbol("let") then EvalLet(args, f, st)
    else if head == Symbol("quote") then
      if !args.Cons? || !args.cdr.Null? then Fail(QuoteArity)
      else
        PlainOk(S, args, |st|);
        Ok((args, st))
    else Fail(UnrecognizedForm)
  }

  /**
   * evalIf: exactly three operands; the test must give a boolean; then
   * exactly one of the branches is evaluated.
   */
  function EvalIf(args: Value, f: nat, st: Store): (r: Result<(Value, Store)>)
    requires Valid(S, st) && f < |st| && IsList(args) && FormWF(S, "if", args) && Plain(args)
    ensures Produced(st, r)
    decreases args, 0
  {
    assert "if" != "quote";
    assert WFList(S, args);
    assert IsList(args.cdr);
    if args.cdr.Null? then Fail(IfArity)
    else
      assert IsList(args.cdr.cdr);
      if args.cdr.cdr.Null? || !args.cdr.cdr.cdr.Null? then Fail(IfArity)
      else
        assert WFList(S, args.cdr) && WFList(S, args.cdr.cdr) && Plain(args.cdr) && Plain(args.cdr.cdr);
        var (c, st1) :- Eval(args.car, f, st);
        if !c.Bool? then Fail(IfNotBoolean)
        else
          var (v, st2) :- Eval(if c.b then args.cdr.car else args.cdr.cdr.car, f, st1);
          ExtendsTrans(st, st1, st2);
          Ok((v, st2))
  }

  /**
   * evalLet: a binding list and a body; each init is evaluated in the
   * enclosing frame and bound in a new frame under it, then the body is
   * evaluated in the new frame.
   */
  function EvalLet(args: Value, f: nat, st: Store): (r: Result<(Value, Store)>)
    requires Valid(S, st) && f < |st| && IsList(args) && FormWF(S, "let", args) && Plain(args)
    ensures Produced(st, r)
    decreases args, 0
  {
    if args.Null? || args.cdr.Null? then Fail(LetArity)
    else
      assert IsList(args.cdr);
      var (st1, g) := MakeFrame(st, Some(f));
      if !args.car.Cons? && !args.car.Null? then Fail(LetBadBinding)
      else
        ValidMakeFrame(S, st, Some(f));
        var st2 :- LetBindings(args.car, f, g, st1);
        var (v, st3) :- EvalBody(args.cdr, g, st2);
        assert st3[..|st|] == st2[..|st|] == st1[..|st|] == st;
        Ok((v, st3))
  }

  /**
   * evalLet's binding loop: each binding must be a list; its init is
   * evaluated in frame f, then its name bound in frame g. The frames before
   * g stay as they were.
   */
  function LetBindings(bl: Value, f: nat, g: nat, st: Store): (r: Result<Store>)
    requires Valid(S, st) && f < g < |st| && BindingsWF(S, bl) && Plain(bl)
    ensures r.Ok? ==> Valid(S, r.value) && |st| <= |r.value| && r.value[..g] == st[..g]
    ensures r.Ok? ==> r.value[g].parent == st[g].parent
    decreases bl, 0
  {
    if bl.Null? then Ok(st)
    else if !bl.Cons? || !bl.car.Cons? then Fail(LetBadBinding)
    else
      assert Plain(bl.car) && Plain(bl.car.cdr);
      var (v, st1) :- Eval(bl.car.cdr.car, f, st);
      var st2 :- WithBinding(st1, g, bl.car.car, v);
      ValidWithBinding(S, st1, g, bl.car.car, v);
      var st3 :- LetBindings(bl.cdr, f, g, st2);
      assert st1[..g] == st1[..|st|][..g];
      assert st3[..g] == st2[..g] == st1[..g] == st[..g];
      Ok(st3)
  }

  /** The body of a let: each expression in turn in frame g; the value is the last one's. */
  function EvalBody(body: Value, g: nat, st: Store): (r: Result<(Value, Store)>)
    requires Valid(S, st) && g < |st| && IsList(body) && body.Cons? && WFList(S, body) && Plain(body)
    ensures Produced(st, r)
    decreases body, 0
  {
    var (v, st1) :- Eval(body.car, g, st);
    if body.cdr.Null? then Ok((v, st1))
    else
      var (w, st2) :- EvalBody(body.cdr, g, st1);
      ExtendsTrans(st, st1, st2);
      Ok((w, st2))
  }

  /**
   * Nothing quote-main evaluates has a side effect on the frames that
   * already exist: every symbol refers to what it referred to before, from
   * every frame.
   */
  lemma EvalKeepsLookUps(e: Value, f: nat, st: Store, h: nat, y: string)
    requires Valid(S, st) && f < |st| && h < |st| && WF(S, e) && Plain(e)
    ensures Eval(e, f, st).Ok? ==> LookUp(Eval(e, f, st).value.1, h, y) == LookUp(st, h, y)
  {
    if Eval(e, f, st).Ok? {
      LookUpExtended(st, Eval(e, f, st).value.1, h, y);
    }
  }

  /**
   * Numbers, strings and Booleans evaluate to themselves; a symbol to the
   * value of the binding it refers to, and past the root it is unbound.
   */
  lemma AtomsEvaluate(v: Value, x: string, f: nat, st: Store)
    requires Valid(S, st) && f < |st| && SelfEvaluating(v)
    ensures WF(S, v) && Plain(v) && WF(S, Symbol(x)) && Plain(Symbol(x))
    ensures Eval(v, f, st) == Ok((v, st))
    ensures LookUp(st, f, x).Ok? ==> Eval(Symbol(x), f, st) == Ok((LookUp(st, f, x).value, st))
    ensures LookUp(st, f, x).Fail? ==> Eval(Symbol(x), f, st) == Fail(Unbound(x))
  {
  }

  /** (quote d) evaluates to the operand list (d) itself, not to d. */
  lemma QuoteReturnsOperandList(d: Value, f: nat, st: Store)
    requires Valid(S, st) && f < |st| && Plain(d)
    ensures WF(S, Form("quote", [d])) && Plain(Form("quote", [d]))
    ensures Eval(Form("quote", [d]), f, st) == Ok((Cons(d, Null), st))
  {
    var args := FromSeq([d]);
    assert args == Cons(d, Null);
  }

  /** quote with no operand or with more than one is an error. */
  lemma QuoteNeedsOneOperand(operands: seq<Value>, f: nat, st: Store)
    requires Valid(S, st) && f < |st| && |operands| != 1
    requires forall i | 0 <= i < |operands| :: Plain(operands[i])
    ensures WF(S, Form("quote", operands)) && Plain(Form("quote", operands))
    ensures Eval(Form("quote", operands), f, st) == Fail(QuoteArity)
  {
    PlainFromSeq(operands);
    if operands != [] {
      FromSeqCons(operands[0], operands[1..]);
      assert operands == [operands[0]] + operands[1..];
      FromSeqCons(operands[1], operands[2..]);
      assert operands[1..] == [operands[1]] + operands[2..];
    }
    assert "quote" != "if" && "quote" != "let" && "quote" != "letrec";
  }

  /**
   * A list whose head is not the symbol if, let or quote is an unrecognised
   * special form, whatever its operands; nothing in it is evaluated. (For
   * a number, Boolean or empty-list head this is the model's reading: the
   * C compares the head's bits as a string first.)
   */
  lemma UnrecognizedFormFails(head: Value, operands: seq<Value>, f: nat, st: Store)
    requires Valid(S, st) && f < |st| && Plain(head)
    requires forall i | 0 <= i < |operands| :: Plain(operands[i])
    requires head != Symbol("if") && head != Symbol("let") && head != Symbol("quote")
    ensures WF(S, Cons(head, FromSeq(operands))) && Plain(Cons(head, FromSeq(operands)))
    ensures Eval(Cons(head, FromSeq(operands)), f, st) == Fail(UnrecognizedForm)
  {
    PlainFromSeq(operands);
    if head.Symbol? {
      assert !IsSpecial(S, head.name);
    }
  }

  /**
   * (if c t e): the test is evaluated first; an error in it is the error of
   * the whole; a non-boolean is an error; otherwise exactly the chosen
   * branch is evaluated, from the store the test left.
   */
  lemma IfChooses(c: Value, t: Value, e: Value, f: nat, st: Store)
    requires Valid(S, st) && f < |st|
    requires WF(S, c) && WF(S, t) && WF(S, e) && Plain(c) && Plain(t) && Plain(e)
    ensures WF(S, Form("if", [c, t, e])) && Plain(Form("if", [c, t, e]))
    ensures Eval(c, f, st).Fail? ==> Eval(Form("if", [c, t, e]), f, st) == Fail(Eval(c, f, st).error)
    ensures Eval(c, f, st).Ok? && !Eval(c, f, st).value.0.Bool? ==>
      Eval(Form("if", [c, t, e]), f, st) == Fail(IfNotBoolean)
    ensures Eval(c, f, st).Ok? && Eval(c, f, st).value.0.Bool? ==>
      var (b, st1) := Eval(c, f, st).value;
      Eval(Form("if", [c, t, e]), f, st) == Eval(if b.b then t else e, f, st1)
  {
    var args := FromSeq([c, t, e]);
    FromSeqWF(S, [c, t, e]);
    FromSeqCons(c, [t, e]);
    FromSeqCons(t, [e]);
    FromSeqCons(e, []);
    assert [c, t, e] == [c] + [t, e] && [t, e] == [t] + [e] && [e] == [e] + [];
    assert args == Cons(c, Cons(t, Cons(e, Null)));
    assert "if" != "quote";
    assert IsList(args) && FormWF(S, "if", args);
    assert Eval(Form("if", [c, t, e]), f, st) == EvalIf(args, f, st);
  }

  /** (if c t) and (if c t e x) are errors, before anything is evaluated. */
  lemma IfNeedsThreeOperands(c: Value, t: Value, x: seq<Value>, f: nat, st: Store)
    requires Valid(S, st) && f < |st| && WF(S, c) && WF(S, t) && Plain(c) && Plain(t)
    requires forall i | 0 <= i < |x| :: WF(S, x[i]) && Plain(x[i])
    requires |x| != 1
    ensures WF(S, Form("if", [c, t] + x)) && Plain(Form("if", [c, t] + x))
    ensures Eval(Form("if", [c, t] + x), f, st) == Fail(IfArity)
  {
    var ops := [c, t] + x;
    FromSeqWF(S, ops);
    var args := FromSeq(ops);
    assert "if" != "quote";
    FromSeqCons(c, [t] + x);
    FromSeqCons(t, x);
    assert ops == [c] + ([t] + x);
    assert args == Cons(c, Cons(t, FromSeq(x)));
    if x != [] {
      FromSeqCons(x[0], x[1..]);
      assert x == [x[0]] + x[1..];
      assert FromSeq(x[1..]).Cons?;
    }
    assert IsList(args) && FormWF(S, "if", args);
    assert Eval(Form("if", ops), f, st) == EvalForm(Symbol("if"), args, f, st);
    assert EvalForm(Symbol("if"), args, f, st) == EvalIf(args, f, st);
  }

  /**
   * (let ((x e)) x): e is evaluated in the enclosing frame, after the new
   * frame is made; since that leaves the new frame empty, x is bound there
   * without clash and the body gives back e's value.
   */
  lemma LetInitInOuterFrame(x: string, e: Value, f: nat, st: Store)
    requires Valid(S, st) && f < |st| && WF(S, e) && Plain(e)
    ensures WF(S, OneBinding("let", x, e)) && Plain(OneBinding("let", x, e))
    ensures Valid(S, MakeFrame(st, Some(f)).0)
    ensures var st1 := MakeFrame(st, Some(f)).0;
      var r := Eval(OneBinding("let", x, e), f, st);
      (Eval(e, f, st1).Fail? ==> r == Fail(Eval(e, f, st1).error)) &&
      (Eval(e, f, st1).Ok? ==> r.Ok? && r.value.0 == Eval(e, f, st1).value.0)
  {
    OneBindingWF(S, "let", x, e);
    var form := OneBinding("let", x, e);
    var args := form.cdr;
    assert form == Cons(Symbol("let"), args);
    assert Eval(form, f, st) == EvalForm(Symbol("let"), args, f, st);
    assert EvalForm(Symbol("let"), args, f, st) == EvalLet(args, f, st) by {
      assert "let" != "if";
    }
    LetOne(x, e, f, st);
  }

  /** evalLet on ((x e)) and the body x. */
  lemma LetOne(x: string, e: Value, f: nat, st: Store)
    requires Valid(S, st) && f < |st| && WF(S, e) && Plain(e)
    ensures var args := Cons(Cons(Cons(Symbol(x), Cons(e, Null)), Null), Cons(Symbol(x), Null));
      IsList(args) && FormWF(S, "let", args) && Plain(args)
    ensures Valid(S, MakeFrame(st, Some(f)).0)
    ensures var args := Cons(Cons(Cons(Symbol(x), Cons(e, Null)), Null), Cons(Symbol(x), Null));
      var st1 := MakeFrame(st, Some(f)).0;
      var r := EvalLet(args, f, st);
      (Eval(e, f, st1).Fail? ==> r == Fail(Eval(e, f, st1).error)) &&
      (Eval(e, f, st1).Ok? ==> r.Ok? && r.value.0 == Eval(e, f, st1).value.0)
  {
    OneBindingWF(S, "let", x, e);
    var args := Cons(Cons(Cons(Symbol(x), Cons(e, Null)), Null), Cons(Symbol(x), Null));
    var (st1, g) := MakeFrame(st, Some(f));
    LetSteps(args, f, st);
    LetBindingsOne(x, e, f, g, st1);
    if Eval(e, f, st1).Ok? {
      var st3 := LetBindings(args.car, f, g, st1).value;
      BodyOfSymbol(x, g, st3);
    }
  }

  /** A body that is one symbol gives the value that symbol is bound to. */
  lemma BodyOfSymbol(x: string, g: nat, st: Store)
    requires Valid(S, st) && g < |st| && LookUp(st, g, x).Ok?
    ensures WFList(S, Cons(Symbol(x), Null)) && Plain(Cons(Symbol(x), Null))
    ensures EvalBody(Cons(Symbol(x), Null), g, st) == Ok((LookUp(st, g, x).value, st))
  {
    assert WF(S, Symbol(x)) && Plain(Symbol(x));
    assert Eval(Symbol(x), g, st) == Ok((LookUp(st, g, x).value, st));
  }

  /** evalLet on a binding list and a body: a new frame, the binding loop in it, then the body. */
  lemma LetSteps(args: Value, f: nat, st: Store)
    requires Valid(S, st) && f < |st| && IsList(args) && FormWF(S, "let", args) && Plain(args)
    requires args.Cons? && args.cdr.Cons? && args.car.Cons?
    ensures Valid(S, MakeFrame(st, Some(f)).0)
    ensures BindingsWF(S, args.car) && Plain(args.car) && Plain(args.cdr) && IsList(args.cdr) && WFList(S, args.cdr)
    ensures var r := LetBindings(args.car, f, |st|, MakeFrame(st, Some(f)).0);
      EvalLet(args, f, st) == if r.Fail? then Fail(r.error) else EvalBody(args.cdr, |st|, r.value)
  {
    ValidMakeFrame(S, st, Some(f));
  }

  /** evalLet's binding loop on one binding, into an empty frame g: x is bound there to e's value. */
  lemma LetBindingsOne(x: string, e: Value, f: nat, g: nat, st: Store)
    requires Valid(S, st) && f < g < |st| && WF(S, e) && Plain(e) && st[g].bindings == []
    ensures var bl := Cons(Cons(Symbol(x), Cons(e, Null)), Null);
      BindingsWF(S, bl) && Plain(bl)
    ensures var bl := Cons(Cons(Symbol(x), Cons(e, Null)), Null);
      Eval(e, f, st).Fail? ==> LetBindings(bl, f, g, st) == Fail(Eval(e, f, st).error)
    ensures var bl := Cons(Cons(Symbol(x), Cons(e, Null)), Null);
      Eval(e, f, st).Ok? ==>
        var r := LetBindings(bl, f, g, st);
        r.Ok? && LookUp(r.value, g, x) == Ok(Eval(e, f, st).value.0)
  {
    var b := Cons(Symbol(x), Cons(e, Null));
    var bl := Cons(b, Null);
    assert Plain(Null) && Plain(Symbol(x)) && Plain(Cons(e, Null)) && Plain(b);
    if Eval(e, f, st).Ok? {
      var (v, st2) := Eval(e, f, st).value;
      assert st2[g] == st2[..|st|][g] == st[g];
      assert !BoundIn(st2[g].bindings, x);
      var st3 := WithBinding(st2, g, Symbol(x), v).value;
      ValidWithBinding(S, st2, g, Symbol(x), v);
      LookUpWithBinding(st2, g, Symbol(x), v, g, x);
      assert LetBindings(bl.cdr, f, g, st3) == Ok(st3);
    }
  }

  /**
   * let's binding loop, on any binding list: it succeeds only on a list of
   * pairs whose names are distinct symbols, none bound in the new frame
   * before, and each is bound there afterwards, with no earlier binding of
   * that frame lost. So a repeated name makes let fail.
   */
  lemma {:induction false} LetBindsDistinctNames(bl: Value, f: nat, g: nat, st: Store)
    requires Valid(S, st) && f < g < |st| && BindingsWF(S, bl) && Plain(bl)
    ensures var r := LetBindings(bl, f, g, st);
      r.Ok? ==>
        PairList(bl) && DistinctSymbols(BindingNames(bl)) &&
        forall i | 0 <= i < |BindingNames(bl)| ::
          !BoundIn(st[g].bindings, BindingNames(bl)[i].name) && BoundIn(r.value[g].bindings, BindingNames(bl)[i].name)
    ensures var r := LetBindings(bl, f, g, st);
      r.Ok? ==> forall y :: BoundIn(st[g].bindings, y) ==> BoundIn(r.value[g].bindings, y)
    decreases bl
  {
    var r := LetBindings(bl, f, g, st);
    if r.Ok? && bl.Cons? {
      assert Plain(bl.car) && Plain(bl.car.cdr);
      var (v, st1) := Eval(bl.car.cdr.car, f, st).value;
      assert st1[g] == st1[..|st|][g] == st[g];
      var st2 := WithBinding(st1, g, bl.car.car, v).value;
      ValidWithBinding(S, st1, g, bl.car.car, v);
      LetBindsDistinctNames(bl.cdr, f, g, st2);
      assert r == LetBindings(bl.cdr, f, g, st2);
      forall y | BoundIn(st[g].bindings, y) ensures BoundIn(st2[g].bindings, y) {
        var k :| 0 <= k < |st[g].bindings| && st[g].bindings[k].name == y;
        assert st2[g].bindings[k + 1].name == y;
      }
      FreshNamesCons(bl, v, st[g].bindings, st1[g].bindings, r.value[g].bindings);
    }
  }

  /**
   * interpret's loop: each top-level expression is evaluated in the global
   * frame, in order; an error ends the program (texit) after the results of
   * the expressions before it.
   */
  function EvalForms(forms: Value, st: Store): (r: Outcome)
    requires Valid(S, st) && 0 < |st| && IsList(forms) && WFList(S, forms) && Plain(forms)
    ensures |r.results| <= |Elems(forms)|
    ensures r.error.None? <==> |r.results| == |Elems(forms)|
    decreases forms
  {
    if forms.Null? then Outcome([], None)
    else match Eval(forms.car, 0, st)
      case Fail(e) => Outcome([], Some(e))
      case Ok((v, st1)) =>
        var rest := EvalForms(forms.cdr, st1);
        Outcome([v] + rest.results, rest.error)
  }

  /** interpret: a global frame with no bindings, then the loop. */
  function Interpret(forms: Value): (r: Outcome)
    requires IsList(forms) && WFList(S, forms) && Plain(forms)
    ensures r.error.None? <==> |r.results| == |Elems(forms)|
  {
    var (st, _) := MakeFrame([], None);
    assert Valid(S, st);
    EvalForms(forms, st)
  }

  /** Every top-level symbol is unbound: quote-main's global frame is empty. */
  lemma GlobalSymbolUnbound(x: string)
    ensures WFList(S, FromSeq([Symbol(x)])) && Plain(FromSeq([Symbol(x)]))
    ensures Interpret(FromSeq([Symbol(x)])) == Outcome([], Some(Unbound(x)))
  {
    FromSeqWF(S, [Symbol(x)]);
    FromSeqCons(Symbol(x), []);
    assert [Symbol(x)] == [Symbol(x)] + [];
    var st := MakeFrame([], None).0;
    assert !BoundIn(st[0].bindings, x);
  }
}
