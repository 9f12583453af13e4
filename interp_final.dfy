// The evaluator of final-main/interpreter.c: the special forms if, let,
// letrec, quote, define, lambda, set! and begin, closures with static
// scope, and nine primitives bound in the global frame.
//
// eval and the loops that call it are functions here, with a fuel count
// that every call of eval uses up (a Scheme program need not terminate).
// Every function promises that a successful evaluation leaves a valid store
// that has only grown and a usable value.

module FinalInterpreter {
  import opened Values
  import opened Environments
  import opened Forms
  import opened Primitives

  const S: Stage := FinalStage

  /** A successful evaluation from store st: valid and grown store, usable value. */
  ghost predicate Produced(st: Store, r: Result<(Value, Store)>) {
    r.Ok? ==> Valid(S, r.value.1) && Grows(st, r.value.1) && ValueOk(S, r.value.0, |r.value.1|)
  }

  /** The same, for the steps that only change the store. */
  ghost predicate StoreProduced(st: Store, r: Result<Store>) {
    r.Ok? ==> Valid(S, r.value) && Grows(st, r.value)
  }

  /**
   * eval: literals evaluate to themselves, a symbol to the value of its
   * binding cell, a list to a special form or an application; any other
   * tree to the empty list. A tree of the UNSPECIFIED type is an error.
   */
  function Eval(fuel: nat, e: Value, f: nat, st: Store): (r: Result<(Value, Store)>)
    requires Valid(S, st) && f < |st| && WF(S, e) && Plain(e)
    ensures Produced(st, r)
    decreases fuel, 0
  {
    GrowsRefl(st);
    if fuel == 0 then Fail(OutOfFuel)
    else match e
      case Unspecified => Fail(UsedBeforeInit)
      case Int(_) => Ok((e, st))
      case Double(_) => Ok((e, st))
      case Str(_) => Ok((e, st))
      case Bool(_) => Ok((e, st))
      case Symbol(name) =>
        var v :- LookUp(st, f, name);
        LookUpOk(S, st, f, name);
        Ok((v, st))
      case Cons(head, args) => EvalForm(fuel - 1, head, args, f, st)
      case _ => Ok((Null, st))
  }

  /**
   * A list: a head that is neither a symbol nor a list is not a function;
   * a special form's name selects its evaluator; anything else is applied.
   */
  function EvalForm(fuel: nat, head: Value, args: Value, f: nat, st: Store): (r: Result<(Value, Store)>)
    requires Valid(S, st) && f < |st| && WF(S, Cons(head, args)) && Plain(head) && Plain(args)
    ensures Produced(st, r)
    decreases fuel, 6
  {
    if !head.Symbol? && !head.Cons? then Fail(TypeNotAFunction)
    else if head == Symbol("if") then EvalIf(fuel, args, f, st)
    else if head == Symbol("let") then EvalLet(fuel, args, f, st)
    else if head == Symbol("letrec") then EvalLetrec(fuel, args, f, st)
    else if head == Symbol("quote") then
      if !args.Cons? || !args.cdr.Null? then Fail(QuoteArity)
      else
        PlainOk(S, args.car, |st|);
        GrowsRefl(st);
        Ok((args.car, st))
    else if head == Symbol("define") then EvalDefine(fuel, args, f, st)
    else if head == Symbol("lambda") then
      var c :- EvalLambda(S, args, f, |st|);
      GrowsRefl(st);
      Ok((c, st))
    else if head == Symbol("set!") then EvalSet(fuel, args, f, st)
    else if head == Symbol("begin") then EvalBegin(fuel, args, f, st)
    else EvalCall(fuel, head, args, f, st)
  }

  /** Whether the evaluated arguments are put back in order (not for car and cdr). */
  predicate NeedsReversal(head: Value) {
    !(head == Symbol("car") || head == Symbol("cdr"))
  }

  /**
   * An application: the operator first, then the arguments left to right,
   * collected in reverse and reversed back unless the operator is named car
   * or cdr; then apply.
   */
  function EvalCall(fuel: nat, head: Value, args: Value, f: nat, st: Store): (r: Result<(Value, Store)>)
    requires Valid(S, st) && f < |st| && WF(S, head) && Plain(head)
    requires IsList(args) && WFList(S, args) && Plain(args)
    ensures Produced(st, r)
    decreases fuel, 5
  {
    var (op, st1) :- Eval(fuel, head, f, st);
    EvalOperands(fuel, head, op, args, f, st, st1)
  }

  /** The rest of an application, once the operator is evaluated: the operands, then apply. */
  function EvalOperands(fuel: nat, head: Value, op: Value, args: Value, f: nat, st: Store, st1: Store): (r: Result<(Value, Store)>)
    requires Valid(S, st) && Valid(S, st1) && Grows(st, st1) && f < |st| && ValueOk(S, op, |st1|)
    requires IsList(args) && WFList(S, args) && Plain(args)
    ensures Produced(st, r)
    decreases fuel, 4
  {
    var (rev, st2) :- EvalEach(fuel, args, f, st1, Null);
    ValueOkMono(S, op, |st1|, |st2|);
    GrowsTrans(st, st1, st2);
    ReverseListOk(S, rev, |st2|);
    var r := Apply(fuel, op, if NeedsReversal(head) then ReverseList(rev) else rev, st2);
    if r.Ok? then GrowsTrans(st, st2, r.value.1); r else r
  }

  /**
   * evalEach: evaluates each argument in turn, consing each value onto the
   * list collected so far, so the values come out last first.
   */
  function EvalEach(fuel: nat, args: Value, f: nat, st: Store, acc: Value): (r: Result<(Value, Store)>)
    requires Valid(S, st) && f < |st| && IsList(args) && WFList(S, args) && Plain(args)
    requires IsList(acc) && ValueOk(S, acc, |st|)
    ensures Produced(st, r)
    ensures r.Ok? ==> IsList(r.value.0) && |Elems(r.value.0)| == |Elems(args)| + |Elems(acc)|
    decreases fuel, 1, args
  {
    if args.Null? then
      GrowsRefl(st);
      Ok((acc, st))
    else
      var (v, st1) :- Eval(fuel, args.car, f, st);
      ValueOkMono(S, acc, |st|, |st1|);
      var (vs, st2) :- EvalEach(fuel, args.cdr, f, st1, Cons(v, acc));
      GrowsTrans(st, st1, st2);
      Ok((vs, st2))
  }

  /**
   * apply: a primitive is called on the argument list; a closure gets a new
   * frame under the frame it captured, its parameters bound to the
   * arguments, and its body evaluated there; anything else is an error.
   */
  function Apply(fuel: nat, op: Value, args: Value, st: Store): (r: Result<(Value, Store)>)
    requires Valid(S, st) && ValueOk(S, op, |st|) && IsList(args) && ValueOk(S, args, |st|)
    ensures Produced(st, r)
    decreases fuel, 3
  {
    if !op.Closure? && !op.Primitive? then Fail(NotAFunction)
    else if op.Primitive? then
      var v :- ApplyPrimitive(op.op, args);
      ApplyPrimitiveOk(S, op.op, args, |st|);
      GrowsRefl(st);
      Ok((v, st))
    else
      var (st1, g) := MakeFrame(st, Some(op.env));
      ValidMakeFrame(S, st, Some(op.env));
      ValueOkMono(S, args, |st|, |st1|);
      var st2 :- BindParams(S, st1, g, op.params, args);
      var (v, st3) :- EvalBody(fuel, op.body, g, st2);
      GrowsTrans(st, st1, st2);
      GrowsTrans(st, st2, st3);
      Ok((v, st3))
  }

  /**
   * A body: each expression in turn in the same frame; the value is the
   * last one's. Closures, let, letrec and begin evaluate their bodies so.
   */
  function EvalBody(fuel: nat, body: Value, g: nat, st: Store): (r: Result<(Value, Store)>)
    requires Valid(S, st) && g < |st| && IsList(body) && body.Cons? && WFList(S, body) && Plain(body)
    ensures Produced(st, r)
    decreases fuel, 1, body
  {
    var (v, st1) :- Eval(fuel, body.car, g, st);
    if body.cdr.Null? then Ok((v, st1))
    else
      var (w, st2) :- EvalBody(fuel, body.cdr, g, st1);
      GrowsTrans(st, st1, st2);
      Ok((w, st2))
  }

  /**
   * evalIf: exactly three operands; the test must give a boolean; then
   * exactly one of the branches is evaluated.
   */
  function EvalIf(fuel: nat, args: Value, f: nat, st: Store): (r: Result<(Value, Store)>)
    requires Valid(S, st) && f < |st| && IsList(args) && FormWF(S, "if", args) && Plain(args)
    ensures Produced(st, r)
    decreases fuel, 2
  {
    assert "if" != "quote";
    assert WFList(S, args);
    assert IsList(args.cdr);
    if args.cdr.Null? then Fail(IfArity)
    else
      assert IsList(args.cdr.cdr);
      if args.cdr.cdr.Null? || !args.cdr.cdr.cdr.Null? then Fail(IfArity)
      else
        assert WFList(S, args.cdr) && WFList(S, args.cdr.cdr) && Plain(args.cdr) && Plain(args.cdr.cdr);
        var (c, st1) :- Eval(fuel, args.car, f, st);
        if !c.Bool? then Fail(IfNotBoolean)
        else
          var (v, st2) :- Eval(fuel, if c.b then args.cdr.car else args.cdr.cdr.car, f, st1);
          GrowsTrans(st, st1, st2);
          Ok((v, st2))
  }

  /**
   * evalLet: a binding list and a body; each init is evaluated in the
   * enclosing frame and bound in a new frame under it, then the body is
   * evaluated in the new frame.
   */
  function EvalLet(fuel: nat, args: Value, f: nat, st: Store): (r: Result<(Value, Store)>)
    requires Valid(S, st) && f < |st| && IsList(args) && FormWF(S, "let", args) && Plain(args)
    ensures Produced(st, r)
    decreases fuel, 2
  {
    if args.Null? || args.cdr.Null? then Fail(LetArity)
    else
      assert IsList(args.cdr);
      var (st1, g) := MakeFrame(st, Some(f));
      if !args.car.Cons? && !args.car.Null? then Fail(LetBadBinding)
      else
        ValidMakeFrame(S, st, Some(f));
        var st2 :- LetBindings(fuel, args.car, f, g, st1);
        var (v, st3) :- EvalBody(fuel, args.cdr, g, st2);
        GrowsTrans(st, st1, st2);
        GrowsTrans(st, st2, st3);
        Ok((v, st3))
  }

  /**
   * evalLet's binding loop: each binding must be a list; its init is
   * evaluated in frame f, then its name bound in frame g.
   */
  function LetBindings(fuel: nat, bl: Value, f: nat, g: nat, st: Store): (r: Result<Store>)
    requires Valid(S, st) && f < |st| && g < |st| && BindingsWF(S, bl) && Plain(bl)
    ensures StoreProduced(st, r)
    decreases fuel, 1, bl
  {
    if bl.Null? then
      GrowsRefl(st);
      Ok(st)
    else if !bl.Cons? || !bl.car.Cons? then Fail(LetBadBinding)
    else
      assert Plain(bl.car) && Plain(bl.car.cdr);
      var (v, st1) :- Eval(fuel, bl.car.cdr.car, f, st);
      var st2 :- WithBinding(st1, g, bl.car.car, v);
      ValidWithBinding(S, st1, g, bl.car.car, v);
      var st3 :- LetBindings(fuel, bl.cdr, f, g, st2);
      GrowsTrans(st, st1, st2);
      GrowsTrans(st, st2, st3);
      Ok(st3)
  }

  /**
   * evalLetrec: a new frame; every name bound to UNSPECIFIED first; the
   * frame's bindings put back in declaration order; each init evaluated in
   * the new frame and stored in its name's cell, in order; then the body.
   */
  function EvalLetrec(fuel: nat, args: Value, f: nat, st: Store): (r: Result<(Value, Store)>)
    requires Valid(S, st) && f < |st| && IsList(args) && FormWF(S, "letrec", args) && Plain(args)
    ensures Produced(st, r)
    decreases fuel, 2
  {
    if args.Null? || args.cdr.Null? then Fail(LetrecArity)
    else
      assert IsList(args.cdr);
      var (st1, g) := MakeFrame(st, Some(f));
      if !args.car.Cons? && !args.car.Null? then Fail(LetrecBadBinding)
      else
        ValidMakeFrame(S, st, Some(f));
        var st2 :- Placeholders(args.car, g, st1);
        PlaceholdersPlace(args.car, g, st1);
        var st3 := ReverseFrame(st2, g);
        ReverseFrameValid(st2, g);
        PlacedGrows(args.car, g, st2, st3);
        var st4 :- LetrecInits(fuel, args.car, g, st3);
        var (v, st5) :- EvalBody(fuel, args.cdr, g, st4);
        GrowsTrans(st, st1, st2);
        GrowsTrans(st, st2, st3);
        GrowsTrans(st, st3, st4);
        GrowsTrans(st, st4, st5);
        Ok((v, st5))
  }

  /**
   * evalLetrec's first loop: each binding must be a list; its name is bound
   * in frame g to the UNSPECIFIED value.
   */
  function Placeholders(bl: Value, g: nat, st: Store): (r: Result<Store>)
    requires Valid(S, st) && g < |st|
    ensures StoreProduced(st, r)
    ensures r.Ok? ==> |r.value| == |st|
    decreases bl
  {
    if bl.Null? then
      GrowsRefl(st);
      Ok(st)
    else if !bl.Cons? || !bl.car.Cons? then Fail(LetrecBadBinding)
    else
      var st1 :- WithBinding(st, g, bl.car.car, Unspecified);
      ValidWithBinding(S, st, g, bl.car.car, Unspecified);
      var st2 :- Placeholders(bl.cdr, g, st1);
      GrowsTrans(st, st1, st2);
      Ok(st2)
  }

  /** evalLetrec's first loop over the list cells, with addBinding's scan. */
  method BindPlaceholders(bl: Value, g: nat, st: Store) returns (r: Result<Store>)
    requires Valid(S, st) && g < |st|
    ensures r == Placeholders(bl, g, st)
  {
    var current := st;
    var binding := bl;
    while !binding.Null?
      invariant Valid(S, current) && |current| == |st|
      invariant Placeholders(bl, g, st) == Placeholders(binding, g, current)
      decreases binding
    {
      if !binding.Cons? || !binding.car.Cons? {
        return Fail(LetrecBadBinding);
      }
      var next := AddBinding(current, g, binding.car.car, Unspecified);
      if next.Fail? {
        return Fail(next.error);
      }
      ValidWithBinding(S, current, g, binding.car.car, Unspecified);
      current := next.value;
      binding := binding.cdr;
    }
    return Ok(current);
  }

  /** Every binding of the list has a symbol for a name, bound in frame g. */
  ghost predicate Placed(bl: Value, g: nat, st: Store)
    decreases bl
  {
    g < |st| &&
    (bl.Cons? ==>
      bl.car.Cons? && bl.car.car.Symbol? && BoundIn(st[g].bindings, bl.car.car.name) && Placed(bl.cdr, g, st))
  }

  lemma {:induction false} PlacedGrows(bl: Value, g: nat, st: Store, st': Store)
    requires Placed(bl, g, st) && Grows(st, st')
    ensures Placed(bl, g, st')
    decreases bl
  {
    if bl.Cons? {
      GrowsKeeps(st, st', g, bl.car.car.name);
      PlacedGrows(bl.cdr, g, st, st');
    }
  }

  /** After the first loop every name of the binding list is bound in frame g. */
  lemma {:induction false} PlaceholdersPlace(bl: Value, g: nat, st: Store)
    requires Valid(S, st) && g < |st| && Placeholders(bl, g, st).Ok?
    ensures Placed(bl, g, Placeholders(bl, g, st).value)
    decreases bl
  {
    if bl.Cons? {
      var st1 := WithBinding(st, g, bl.car.car, Unspecified).value;
      ValidWithBinding(S, st, g, bl.car.car, Unspecified);
      PlaceholdersPlace(bl.cdr, g, st1);
      var st2 := Placeholders(bl.cdr, g, st1).value;
      assert st1[g].bindings[0].name == bl.car.car.name;
      GrowsKeeps(st1, st2, g, bl.car.car.name);
    }
  }

  /**
   * The in-place reversal of frame g's binding list that evalLetrec runs
   * between its two loops (the pointer loop of Values.ReverseInPlace).
   */
  function ReverseFrame(st: Store, g: nat): (r: Store)
    requires g < |st|
    ensures |r| == |st| && r[g].bindings == Reversed(st[g].bindings)
    ensures forall h | 0 <= h < |st| && h != g :: r[h] == st[h]
  {
    st[g := Frame(Reversed(st[g].bindings), st[g].parent)]
  }

  /** Reversing a frame's bindings keeps its names, so the store stays valid and grows. */
  lemma ReverseFrameValid(st: Store, g: nat)
    requires Valid(S, st) && g < |st|
    ensures Valid(S, ReverseFrame(st, g)) && Grows(st, ReverseFrame(st, g))
  {
    var st' := ReverseFrame(st, g);
    var bs := st[g].bindings;
    assert Chained(st') by {
      forall h | 0 <= h < |st'| ensures st'[h].parent == st[h].parent { }
    }
    forall j | 0 <= j < |bs| ensures ValueOk(S, st'[g].bindings[j].value, |st'|) {
      ReversedAt(bs, j);
    }
    forall x | BoundIn(bs, x) ensures BoundIn(st'[g].bindings, x) {
      var k :| 0 <= k < |bs| && bs[k].name == x;
      ReversedAt(bs, |bs| - 1 - k);
      assert st'[g].bindings[|bs| - 1 - k].name == x;
    }
  }

  /**
   * evalLetrec's second loop: each init is evaluated in frame g, where all
   * the names are bound, and its value stored in its name's cell.
   */
  function LetrecInits(fuel: nat, bl: Value, g: nat, st: Store): (r: Result<Store>)
    requires Valid(S, st) && g < |st| && BindingsWF(S, bl) && Plain(bl) && Placed(bl, g, st)
    ensures StoreProduced(st, r)
    decreases fuel, 1, bl
  {
    if !bl.Cons? then
      GrowsRefl(st);
      Ok(st)
    else
      assert Plain(bl.car) && Plain(bl.car.cdr);
      var (v, st1) :- Eval(fuel, bl.car.cdr.car, g, st);
      PlacedGrows(bl, g, st, st1);
      var st2 := SetBinding(st1, g, bl.car.car.name, v);
      ValidSetBinding(S, st1, g, bl.car.car.name, v);
      PlacedGrows(bl.cdr, g, st1, st2);
      var st3 :- LetrecInits(fuel, bl.cdr, g, st2);
      GrowsTrans(st, st1, st2);
      GrowsTrans(st, st2, st3);
      Ok(st3)
  }

  /**
   * evalDefine: exactly a symbol and an expression; the value is bound in
   * the current frame; the result is VOID.
   */
  function EvalDefine(fuel: nat, args: Value, f: nat, st: Store): (r: Result<(Value, Store)>)
    requires Valid(S, st) && f < |st| && IsList(args) && FormWF(S, "define", args) && Plain(args)
    ensures Produced(st, r)
    decreases fuel, 2
  {
    if args.Null? || args.cdr.Null? then Fail(DefineArity)
    else
      assert IsList(args.cdr);
      if !args.cdr.cdr.Null? then Fail(DefineArity)
      else if !args.car.Symbol? then Fail(DefineNonVariable)
      else
        assert Plain(args.cdr);
        var (v, st1) :- Eval(fuel, args.cdr.car, f, st);
        var st2 :- WithBinding(st1, f, args.car, v);
        ValidWithBinding(S, st1, f, args.car, v);
        GrowsTrans(st, st1, st2);
        Ok((Void, st2))
  }

  /**
   * evalSetbang: exactly a symbol and an expression; the symbol's binding
   * cell is found first (unbound is an error), then the expression is
   * evaluated and its value stored in that cell; the result is VOID.
   */
  function EvalSet(fuel: nat, args: Value, f: nat, st: Store): (r: Result<(Value, Store)>)
    requires Valid(S, st) && f < |st| && IsList(args) && FormWF(S, "set!", args) && Plain(args)
    ensures Produced(st, r)
    decreases fuel, 2
  {
    if args.Null? || args.cdr.Null? then Fail(SetArity)
    else
      assert IsList(args.cdr);
      if !args.cdr.cdr.Null? then Fail(SetArity)
      else if !args.car.Symbol? then Fail(SetNonVariable)
      else
        assert Plain(args.cdr);
        var g :- Find(st, f, args.car.name);
        var (v, st1) :- Eval(fuel, args.cdr.car, f, st);
        GrowsKeeps(st, st1, g, args.car.name);
        var st2 := SetBinding(st1, g, args.car.name, v);
        ValidSetBinding(S, st1, g, args.car.name, v);
        GrowsTrans(st, st1, st2);
        Ok((Void, st2))
  }

  /** evalBegin: VOID for no expressions, else the value of the last. */
  function EvalBegin(fuel: nat, args: Value, f: nat, st: Store): (r: Result<(Value, Store)>)
    requires Valid(S, st) && f < |st| && IsList(args) && FormWF(S, "begin", args) && Plain(args)
    ensures Produced(st, r)
    decreases fuel, 2
  {
    if args.Null? then
      GrowsRefl(st);
      Ok((Void, st))
    else EvalBody(fuel, args, f, st)
  }

  // ---------------------------------------------------------------------
  // The global frame and the top-level loop

  /** interpret's global frame: a root frame with the nine primitives bound in order. */
  function GlobalStore(): (r: Store)
    ensures |r| == 1 && r[0].parent.None?
  {
    var st := MakeFrame([], None).0;
    var st := Bind(st, 0, "+", PlusOp);
    var st := Bind(st, 0, "-", MinusOp);
    var st := Bind(st, 0, "=", EqualOp);
    var st := Bind(st, 0, "null?", NullOp);
    var st := Bind(st, 0, "car", CarOp);
    var st := Bind(st, 0, "cdr", CdrOp);
    var st := Bind(st, 0, "cons", ConsOp);
    var st := Bind(st, 0, ">", GreaterOp);
    Bind(st, 0, "<", LessOp)
  }

  /** The bindings of the global frame, most recent first. */
  const GlobalList: seq<Binding> := [
    Binding("<", Primitive(LessOp)), Binding(">", Primitive(GreaterOp)), Binding("cons", Primitive(ConsOp)),
    Binding("cdr", Primitive(CdrOp)), Binding("car", Primitive(CarOp)), Binding("null?", Primitive(NullOp)),
    Binding("=", Primitive(EqualOp)), Binding("-", Primitive(MinusOp)), Binding("+", Primitive(PlusOp))]

  /** The nine names are distinct, so no binding of the global frame hides another. */
  lemma GlobalDistinct()
    ensures forall j, k | 0 <= j < k < |GlobalList| :: GlobalList[j].name != GlobalList[k].name
  {
    forall j, k | 0 <= j < k < |GlobalList| ensures GlobalList[j].name != GlobalList[k].name {
      GlobalKeys(j);
      GlobalKeys(k);
    }
  }

  /** A two-character key of each global name, distinct for distinct positions. */
  lemma GlobalKeys(k: nat)
    requires k < |GlobalList|
    ensures var name := GlobalList[k].name;
      |name| > 0 && [name[0], name[|name| / 2]] == ["<<", ">>", "cn", "cd", "ca", "nl", "==", "--", "++"][k]
  {
  }

  /**
   * The global store is valid, each primitive's name refers to that
   * primitive from the global frame, and every other name is unbound.
   */
  lemma GlobalBindings(name: string)
    ensures Valid(S, GlobalStore())
    ensures forall k | 0 <= k < |GlobalList| :: LookUp(GlobalStore(), 0, GlobalList[k].name) == Ok(GlobalList[k].value)
    ensures (forall k | 0 <= k < |GlobalList| :: GlobalList[k].name != name) ==> LookUp(GlobalStore(), 0, name) == Fail(Unbound(name))
  {
    GlobalFrame();
    GlobalDistinct();
    var st := [Frame(GlobalList, None)];
    assert Valid(S, st) by {
      forall j | 0 <= j < |GlobalList| ensures ValueOk(S, GlobalList[j].value, 1) {
        assert GlobalList[j].value.Primitive?;
      }
    }
    forall k | 0 <= k < |GlobalList|
      ensures LookUp(st, 0, GlobalList[k].name) == Ok(GlobalList[k].value)
    {
      LookUpInnermost(st, 0, GlobalList[k].name, k);
    }
    if forall k | 0 <= k < |GlobalList| :: GlobalList[k].name != name {
      LookUpOuter(st, 0, name);
    }
  }

  /** The global frame's bindings, the last bound first. */
  lemma GlobalFrame()
    ensures GlobalStore() == [Frame(GlobalList, None)]
  {
    var l := GlobalList;
    assert l[8..] == [l[8]] + [];
    assert l[7..] == [l[7]] + l[8..];
    assert l[6..] == [l[6]] + l[7..];
    assert l[5..] == [l[5]] + l[6..];
    assert l[4..] == [l[4]] + l[5..];
    assert l[3..] == [l[3]] + l[4..];
    assert l[2..] == [l[2]] + l[3..];
    assert l[1..] == [l[1]] + l[2..];
    assert l == [l[0]] + l[1..];
  }

  /**
   * interpret's loop: each top-level expression is evaluated in the global
   * frame, in order; an error ends the program (texit) after the results of
   * the expressions before it.
   */
  function EvalForms(fuel: nat, forms: Value, st: Store): (r: Outcome)
    requires Valid(S, st) && 0 < |st| && IsList(forms) && WFList(S, forms) && Plain(forms)
    ensures |r.results| <= |Elems(forms)|
    ensures r.error.None? <==> |r.results| == |Elems(forms)|
    decreases forms
  {
    if forms.Null? then Outcome([], None)
    else match Eval(fuel, forms.car, 0, st)
      case Fail(e) => Outcome([], Some(e))
      case Ok((v, st1)) =>
        var rest := EvalForms(fuel, forms.cdr, st1);
        Outcome([v] + rest.results, rest.error)
  }

  /** interpret: the global frame, then the loop; every expression gets the same fuel. */
  function Interpret(fuel: nat, forms: Value): (r: Outcome)
    requires IsList(forms) && WFList(S, forms) && Plain(forms)
    ensures r.error.None? <==> |r.results| == |Elems(forms)|
  {
    GlobalBindings("");
    EvalForms(fuel, forms, GlobalStore())
  }

  // ---------------------------------------------------------------------
  // What the special forms mean

  /**
   * (if c t e): the test is evaluated first; an error in it is the error of
   * the whole; a non-boolean is an error; otherwise exactly the chosen
   * branch is evaluated, from the store the test left.
   */
  lemma IfChooses(fuel: nat, c: Value, t: Value, e: Value, f: nat, st: Store)
    requires Valid(S, st) && f < |st|
    requires WF(S, c) && WF(S, t) && WF(S, e) && Plain(c) && Plain(t) && Plain(e)
    ensures WF(S, Form("if", [c, t, e])) && Plain(Form("if", [c, t, e]))
    ensures Eval(fuel, c, f, st).Fail? ==>
      Eval(fuel + 1, Form("if", [c, t, e]), f, st) == Fail(Eval(fuel, c, f, st).error)
    ensures Eval(fuel, c, f, st).Ok? && !Eval(fuel, c, f, st).value.0.Bool? ==>
      Eval(fuel + 1, Form("if", [c, t, e]), f, st) == Fail(IfNotBoolean)
    ensures Eval(fuel, c, f, st).Ok? && Eval(fuel, c, f, st).value.0.Bool? ==>
      var (b, st1) := Eval(fuel, c, f, st).value;
      Eval(fuel + 1, Form("if", [c, t, e]), f, st) == Eval(fuel, if b.b then t else e, f, st1)
  {
    IfForm(fuel, [c, t, e], f, st);
    FromSeqCons(c, [t, e]);
    FromSeqCons(t, [e]);
    FromSeqCons(e, []);
    assert [c, t, e] == [c] + [t, e] && [t, e] == [t] + [e] && [e] == [e] + [];
    IfOnThree(fuel, c, t, e, f, st);
  }

  /** evalIf on exactly three operands. */
  lemma IfOnThree(fuel: nat, c: Value, t: Value, e: Value, f: nat, st: Store)
    requires Valid(S, st) && f < |st|
    requires IsList(Cons(c, Cons(t, Cons(e, Null)))) && FormWF(S, "if", Cons(c, Cons(t, Cons(e, Null))))
    requires Plain(Cons(c, Cons(t, Cons(e, Null))))
    requires WF(S, c) && WF(S, t) && WF(S, e) && Plain(c) && Plain(t) && Plain(e)
    ensures var r := EvalIf(fuel, Cons(c, Cons(t, Cons(e, Null))), f, st);
      var rc := Eval(fuel, c, f, st);
      (rc.Fail? ==> r == Fail(rc.error)) &&
      (rc.Ok? && !rc.value.0.Bool? ==> r == Fail(IfNotBoolean)) &&
      (rc.Ok? && rc.value.0.Bool? ==> r == Eval(fuel, if rc.value.0.b then t else e, f, rc.value.1))
  {
    assert "if" != "quote";
  }

  /** (if c t) and (if c t e x) are errors, before anything is evaluated. */
  lemma IfNeedsThreeOperands(fuel: nat, c: Value, t: Value, x: seq<Value>, f: nat, st: Store)
    requires Valid(S, st) && f < |st| && WF(S, c) && WF(S, t) && Plain(c) && Plain(t)
    requires forall i | 0 <= i < |x| :: WF(S, x[i]) && Plain(x[i])
    requires |x| != 1
    ensures WF(S, Form("if", [c, t] + x)) && Plain(Form("if", [c, t] + x))
    ensures Eval(fuel + 1, Form("if", [c, t] + x), f, st) == Fail(IfArity)
  {
    var ops := [c, t] + x;
    IfForm(fuel, ops, f, st);
    FromSeqCons(c, [t] + x);
    FromSeqCons(t, x);
    assert ops == [c] + ([t] + x);
    if x != [] {
      FromSeqCons(x[0], x[1..]);
      assert x == [x[0]] + x[1..];
      assert FromSeq(x[1..]).Cons?;
    }
    IfArityOnList(fuel, c, t, FromSeq(x), f, st);
  }

  /** evalIf on two operands, or on four or more, fails with the arity error. */
  lemma IfArityOnList(fuel: nat, c: Value, t: Value, xs: Value, f: nat, st: Store)
    requires Valid(S, st) && f < |st|
    requires IsList(Cons(c, Cons(t, xs))) && FormWF(S, "if", Cons(c, Cons(t, xs))) && Plain(Cons(c, Cons(t, xs)))
    requires xs.Null? || (xs.Cons? && xs.cdr.Cons?)
    ensures EvalIf(fuel, Cons(c, Cons(t, xs)), f, st) == Fail(IfArity)
  {
    assert "if" != "quote";
  }

  /** A list headed by if is evalIf on the list of its operands. */
  lemma IfForm(fuel: nat, ops: seq<Value>, f: nat, st: Store)
    requires Valid(S, st) && f < |st| && ops != []
    requires forall i | 0 <= i < |ops| :: WF(S, ops[i]) && Plain(ops[i])
    ensures IsList(FromSeq(ops)) && FormWF(S, "if", FromSeq(ops)) && Plain(FromSeq(ops))
    ensures WF(S, Form("if", ops)) && Plain(Form("if", ops))
    ensures Eval(fuel + 1, Form("if", ops), f, st) == EvalIf(fuel, FromSeq(ops), f, st)
  {
    var args := FromSeq(ops);
    FromSeqWF(S, ops);
    FromSeqCons(ops[0], ops[1..]);
    assert ops == [ops[0]] + ops[1..];
    assert IsList(args) && FormWF(S, "if", args);
    assert Eval(fuel + 1, Form("if", ops), f, st) == EvalForm(fuel, Symbol("if"), args, f, st);
    assert EvalForm(fuel, Symbol("if"), args, f, st) == EvalIf(fuel, args, f, st);
  }

  /**
   * define with other than two operands, or with a first operand that is
   * not a symbol, is an error before anything is evaluated.
   */
  lemma DefineRejects(fuel: nat, operands: seq<Value>, f: nat, st: Store)
    requires Valid(S, st) && f < |st|
    requires forall i | 0 <= i < |operands| :: WF(S, operands[i]) && Plain(operands[i])
    requires |operands| != 2 || !operands[0].Symbol?
    ensures WF(S, Form("define", operands)) && Plain(Form("define", operands))
    ensures Eval(fuel + 1, Form("define", operands), f, st) ==
      Fail(if |operands| != 2 then DefineArity else DefineNonVariable)
  {
    DefineOperandsRejected(fuel, operands, f, st);
    var args := FromSeq(operands);
    var form := Form("define", operands);
    assert form == Cons(Symbol("define"), args);
    assert Eval(fuel + 1, form, f, st) == EvalForm(fuel, Symbol("define"), args, f, st);
    assert EvalForm(fuel, Symbol("define"), args, f, st) == EvalDefine(fuel, args, f, st) by {
      assert "define" != "quote" && "define" != "if" && "define" != "let" && "define" != "letrec";
    }
  }

  /** evalDefine's arity and symbol checks on the operand list. */
  lemma DefineOperandsRejected(fuel: nat, operands: seq<Value>, f: nat, st: Store)
    requires Valid(S, st) && f < |st|
    requires forall i | 0 <= i < |operands| :: WF(S, operands[i]) && Plain(operands[i])
    requires |operands| != 2 || !operands[0].Symbol?
    ensures var args := FromSeq(operands);
      IsList(args) && FormWF(S, "define", args) && Plain(args) &&
      EvalDefine(fuel, args, f, st) == Fail(if |operands| != 2 then DefineArity else DefineNonVariable)
  {
    FromSeqWF(S, operands);
    if |operands| >= 1 {
      FromSeqCons(operands[0], operands[1..]);
      assert operands == [operands[0]] + operands[1..];
      if |operands| >= 2 {
        FromSeqCons(operands[1], operands[2..]);
        assert operands[1..] == [operands[1]] + operands[2..];
        if |operands| >= 3 {
          FromSeqCons(operands[2], operands[3..]);
          assert operands[2..] == [operands[2]] + operands[3..];
        }
      }
    }
  }

  /** (quote d) evaluates to d itself, whatever d is, and changes nothing. */
  lemma QuoteReturnsDatum(fuel: nat, d: Value, f: nat, st: Store)
    requires Valid(S, st) && f < |st| && Plain(d)
    ensures WF(S, Form("quote", [d])) && Plain(Form("quote", [d]))
    ensures Eval(fuel + 1, Form("quote", [d]), f, st) == Ok((d, st))
  {
    var args := FromSeq([d]);
    assert args == Cons(d, Null);
  }

  /** quote with no operand or with more than one is an error. */
  lemma QuoteNeedsOneOperand(fuel: nat, operands: seq<Value>, f: nat, st: Store)
    requires Valid(S, st) && f < |st| && |operands| != 1
    requires forall i | 0 <= i < |operands| :: Plain(operands[i])
    ensures WF(S, Form("quote", operands)) && Plain(Form("quote", operands))
    ensures Eval(fuel + 1, Form("quote", operands), f, st) == Fail(QuoteArity)
  {
    PlainFromSeq(operands);
    if operands != [] {
      FromSeqCons(operands[0], operands[1..]);
      assert operands == [operands[0]] + operands[1..];
      FromSeqCons(operands[1], operands[2..]);
      assert operands[1..] == [operands[1]] + operands[2..];
    }
    assert "quote" != "if" && "quote" != "let" && "quote" != "letrec";
  }

  /**
   * (define x e): e is evaluated in the current frame; defining a name the
   * current frame already binds is an error; otherwise the result is VOID,
   * x now refers to e's value from that frame, and no other name changes.
   */
  lemma DefineThenLookUp(fuel: nat, x: string, e: Value, f: nat, st: Store, h: nat, y: string)
    requires Valid(S, st) && f < |st| && h < |st| && WF(S, e) && Plain(e)
    ensures WF(S, Form("define", [Symbol(x), e])) && Plain(Form("define", [Symbol(x), e]))
    ensures Eval(fuel, e, f, st).Fail? ==>
      Eval(fuel + 1, Form("define", [Symbol(x), e]), f, st) == Fail(Eval(fuel, e, f, st).error)
    ensures Eval(fuel, e, f, st).Ok? ==>
      var (v, st1) := Eval(fuel, e, f, st).value;
      var r := Eval(fuel + 1, Form("define", [Symbol(x), e]), f, st);
      (r.Fail? <==> BoundIn(st1[f].bindings, x)) &&
      (r.Fail? ==> r.error == AlreadyBound(x)) &&
      (r.Ok? ==> r.value.0 == Void && LookUp(r.value.1, f, x) == Ok(v)) &&
      (r.Ok? && y != x ==> LookUp(r.value.1, h, y) == LookUp(st1, h, y))
  {
    DefineForm(fuel, x, e, f, st);
    DefineSteps(fuel, x, e, f, st);
    if Eval(fuel, e, f, st).Ok? {
      var (v, st1) := Eval(fuel, e, f, st).value;
      if WithBinding(st1, f, Symbol(x), v).Ok? {
        LookUpWithBinding(st1, f, Symbol(x), v, h, y);
      }
    }
  }

  /** A (define x e) form is dispatched to evalDefine. */
  lemma DefineForm(fuel: nat, x: string, e: Value, f: nat, st: Store)
    requires Valid(S, st) && f < |st| && WF(S, e) && Plain(e)
    ensures WF(S, Form("define", [Symbol(x), e])) && Plain(Form("define", [Symbol(x), e]))
    ensures var args := Cons(Symbol(x), Cons(e, Null));
      IsList(args) && FormWF(S, "define", args) && Plain(args) &&
      Eval(fuel + 1, Form("define", [Symbol(x), e]), f, st) == EvalDefine(fuel, args, f, st)
  {
    NamedFormWF(S, "define", x, e);
    var form := Form("define", [Symbol(x), e]);
    var args := form.cdr;
    assert form == Cons(Symbol("define"), args);
    assert Eval(fuel + 1, form, f, st) == EvalForm(fuel, Symbol("define"), args, f, st);
    assert EvalForm(fuel, Symbol("define"), args, f, st) == EvalDefine(fuel, args, f, st) by {
      assert "define" != "if" && "define" != "let" && "define" != "letrec" && "define" != "quote";
    }
  }

  /** evalDefine on (x e): evaluate e, then addBinding in the current frame. */
  lemma DefineSteps(fuel: nat, x: string, e: Value, f: nat, st: Store)
    requires Valid(S, st) && f < |st| && WF(S, e) && Plain(e)
    ensures var args := Cons(Symbol(x), Cons(e, Null));
      IsList(args) && FormWF(S, "define", args) && Plain(args) &&
      var r := Eval(fuel, e, f, st);
      EvalDefine(fuel, args, f, st) ==
        if r.Fail? then Fail(r.error)
        else
          var w := WithBinding(r.value.1, f, Symbol(x), r.value.0);
          if w.Fail? then Fail(w.error) else Ok((Void, w.value))
  {
    NamedFormWF(S, "define", x, e);
  }

  /**
   * (set! x e): x's binding cell is found from the current frame before e is
   * evaluated, so an unbound x is an error whatever e is; otherwise that
   * cell gets e's value, the result is VOID, and no other name changes.
   * From the current frame x refers to the new value unless evaluating e
   * bound x in a nearer frame.
   */
  lemma SetThenLookUp(fuel: nat, x: string, e: Value, f: nat, st: Store, h: nat, y: string)
    requires Valid(S, st) && f < |st| && h < |st| && WF(S, e) && Plain(e)
    ensures WF(S, Form("set!", [Symbol(x), e])) && Plain(Form("set!", [Symbol(x), e]))
    ensures Find(st, f, x).Fail? ==> Eval(fuel + 1, Form("set!", [Symbol(x), e]), f, st) == Fail(Unbound(x))
    ensures Find(st, f, x).Ok? && Eval(fuel, e, f, st).Fail? ==>
      Eval(fuel + 1, Form("set!", [Symbol(x), e]), f, st) == Fail(Eval(fuel, e, f, st).error)
    ensures Find(st, f, x).Ok? && Eval(fuel, e, f, st).Ok? ==>
      var g := Find(st, f, x).value;
      var (v, st1) := Eval(fuel, e, f, st).value;
      var r := Eval(fuel + 1, Form("set!", [Symbol(x), e]), f, st);
      r.Ok? && r.value.0 == Void && |r.value.1| == |st1| &&
      LookUp(r.value.1, g, x) == Ok(v) &&
      (Find(st1, f, x) == Ok(g) ==> LookUp(r.value.1, f, x) == Ok(v)) &&
      (y != x ==> LookUp(r.value.1, h, y) == LookUp(st1, h, y))
  {
    SetForm(fuel, x, e, f, st);
    SetSteps(fuel, x, e, f, st);
    if Find(st, f, x).Ok? && Eval(fuel, e, f, st).Ok? {
      var (v, st1) := Eval(fuel, e, f, st).value;
      SetEffects(st, st1, f, Find(st, f, x).value, x, v, h, y);
    }
  }

  /** A (set! x e) form is dispatched to evalSet. */
  lemma SetForm(fuel: nat, x: string, e: Value, f: nat, st: Store)
    requires Valid(S, st) && f < |st| && WF(S, e) && Plain(e)
    ensures WF(S, Form("set!", [Symbol(x), e])) && Plain(Form("set!", [Symbol(x), e]))
    ensures var args := Cons(Symbol(x), Cons(e, Null));
      IsList(args) && FormWF(S, "set!", args) && Plain(args) &&
      Eval(fuel + 1, Form("set!", [Symbol(x), e]), f, st) == EvalSet(fuel, args, f, st)
  {
    NamedFormWF(S, "set!", x, e);
    var form := Form("set!", [Symbol(x), e]);
    var args := form.cdr;
    assert form == Cons(Symbol("set!"), args);
    assert Eval(fuel + 1, form, f, st) == EvalForm(fuel, Symbol("set!"), args, f, st);
    assert EvalForm(fuel, Symbol("set!"), args, f, st) == EvalSet(fuel, args, f, st) by {
      assert "set!" != "if" && "set!" != "let" && "set!" != "letrec" && "set!" != "quote" && "set!" != "define" && "set!" != "lambda";
    }
  }

  /** evalSet on (x e): find x's cell, evaluate e, then store e's value in that cell. */
  lemma SetSteps(fuel: nat, x: string, e: Value, f: nat, st: Store)
    requires Valid(S, st) && f < |st| && WF(S, e) && Plain(e)
    ensures var args := Cons(Symbol(x), Cons(e, Null));
      IsList(args) && FormWF(S, "set!", args) && Plain(args) &&
      var fd := Find(st, f, x);
      var r := Eval(fuel, e, f, st);
      EvalSet(fuel, args, f, st) ==
        if fd.Fail? then Fail(Unbound(x))
        else if r.Fail? then Fail(r.error)
        else Ok((Void, SetBinding(r.value.1, fd.value, x, r.value.0)))
  {
    NamedFormWF(S, "set!", x, e);
  }

  /** What storing v in x's cell in frame g changes, seen from any frame. */
  lemma SetEffects(st: Store, st1: Store, f: nat, g: nat, x: string, v: Value, h: nat, y: string)
    requires Valid(S, st) && Valid(S, st1) && Grows(st, st1) && f < |st| && h < |st|
    requires Find(st, f, x) == Ok(g)
    ensures g < |st1| && Find(st1, g, x) == Ok(g)
    ensures var st2 := SetBinding(st1, g, x, v);
      |st2| == |st1| && LookUp(st2, g, x) == Ok(v) &&
      (Find(st1, f, x) == Ok(g) ==> LookUp(st2, f, x) == Ok(v)) &&
      (y != x ==> LookUp(st2, h, y) == LookUp(st1, h, y))
  {
    GrowsKeeps(st, st1, g, x);
    assert Find(st1, g, x) == Ok(g);
    LookUpAfterSet(st1, g, x, v);
    if Find(st1, f, x) == Ok(g) {
      LookUpAfterSet(st1, f, x, v);
    }
    if y != x {
      LookUpSetOther(st1, g, x, v, h, y);
    }
  }

  /** The bindings letrec's first loop makes, one per name, each to UNSPECIFIED, front to back. */
  function PlaceholderBindings(names: seq<Value>): seq<Binding>
    requires forall i | 0 <= i < |names| :: names[i].Symbol?
  {
    seq(|names|, i requires 0 <= i < |names| => Binding(names[i].name, Unspecified))
  }

  /**
   * letrec's first loop, on any binding list: it succeeds exactly on a list
   * of pairs whose names are distinct symbols unbound in frame g. Then it
   * has put each name, bound to UNSPECIFIED, on the front of g's bindings
   * in turn, and no other frame has changed.
   */
  lemma {:induction false} PlaceholdersBindEach(bl: Value, g: nat, st: Store)
    requires Valid(S, st) && g < |st|
    ensures var r := Placeholders(bl, g, st);
      r.Ok? <==>
        PairList(bl) && DistinctSymbols(BindingNames(bl)) &&
        forall i | 0 <= i < |BindingNames(bl)| :: !BoundIn(st[g].bindings, BindingNames(bl)[i].name)
    ensures var r := Placeholders(bl, g, st);
      r.Ok? ==>
        r.value[g] == Frame(Reversed(PlaceholderBindings(BindingNames(bl))) + st[g].bindings, st[g].parent) &&
        forall h | 0 <= h < |st| && h != g :: r.value[h] == st[h]
    decreases bl
  {
    if bl.Cons? && bl.car.Cons? {
      var x := bl.car.car;
      var w := WithBinding(st, g, x, Unspecified);
      if PairList(bl) {
        assert BindingNames(bl)[0] == x;
      }
      if w.Ok? {
        var st1 := w.value;
        ValidWithBinding(S, st, g, x, Unspecified);
        PlaceholdersBindEach(bl.cdr, g, st1);
        var r := Placeholders(bl, g, st);
        assert r == Placeholders(bl.cdr, g, st1);
        if PairList(bl.cdr) {
          var ys := BindingNames(bl.cdr);
          assert BindingNames(bl) == [x] + ys;
          FreshNamesStep(x, ys, st[g].bindings, Unspecified);
          if r.Ok? {
            PlaceholdersCons(x, ys);
          }
        }
      }
    }
  }

  /** The placeholders of x and then ys, reversed: those of ys reversed, then x's. */
  lemma PlaceholdersCons(x: Value, ys: seq<Value>)
    requires x.Symbol? && forall i | 0 <= i < |ys| :: ys[i].Symbol?
    ensures forall i | 0 <= i < |[x] + ys| :: ([x] + ys)[i].Symbol?
    ensures Reversed(PlaceholderBindings([x] + ys)) == Reversed(PlaceholderBindings(ys)) + [Binding(x.name, Unspecified)]
  {
    var ps := PlaceholderBindings([x] + ys);
    assert ps == [Binding(x.name, Unspecified)] + PlaceholderBindings(ys);
    assert ps[1..] == PlaceholderBindings(ys);
  }

  /**
   * letrec's new frame after the first loop and the reversal: on a list of
   * pairs whose names are distinct symbols, it holds every name bound to
   * UNSPECIFIED, in declaration order, under the enclosing frame, and the
   * store is otherwise as it was; any other binding list is an error.
   */
  lemma LetrecFrameInOrder(bl: Value, f: nat, st: Store)
    requires Valid(S, st) && f < |st|
    ensures Valid(S, MakeFrame(st, Some(f)).0)
    ensures var r := Placeholders(bl, |st|, MakeFrame(st, Some(f)).0);
      r.Ok? <==> PairList(bl) && DistinctSymbols(BindingNames(bl))
    ensures var r := Placeholders(bl, |st|, MakeFrame(st, Some(f)).0);
      r.Ok? ==> ReverseFrame(r.value, |st|) == st + [Frame(PlaceholderBindings(BindingNames(bl)), Some(f))]
  {
    var (st0, g) := MakeFrame(st, Some(f));
    ValidMakeFrame(S, st, Some(f));
    PlaceholdersBindEach(bl, g, st0);
    assert forall n :: !BoundIn(st0[g].bindings, n);
    var r := Placeholders(bl, g, st0);
    if r.Ok? {
      var ps := PlaceholderBindings(BindingNames(bl));
      var st3 := ReverseFrame(r.value, g);
      assert Reversed(ps) + st0[g].bindings == Reversed(ps);
      ReversedTwice(ps);
      assert st3[g] == Frame(ps, Some(f));
      assert st3 == st + [Frame(ps, Some(f))] by {
        forall h | 0 <= h < |st| ensures st3[h] == st[h] {
          assert st0[h] == st[h];
        }
      }
    }
  }

  /**
   * evalLetrec on any binding list and a body: the new frame, the first
   * loop and the reversal; then the second loop from there; then the body
   * in the new frame. A binding list that is neither a pair nor empty is
   * an error before anything else.
   */
  lemma LetrecSteps(fuel: nat, args: Value, f: nat, st: Store)
    requires Valid(S, st) && f < |st| && IsList(args) && FormWF(S, "letrec", args) && Plain(args)
    requires args.Cons? && args.cdr.Cons?
    ensures !args.car.Cons? && !args.car.Null? ==> EvalLetrec(fuel, args, f, st) == Fail(LetrecBadBinding)
    ensures Valid(S, MakeFrame(st, Some(f)).0)
    ensures var p := Placeholders(args.car, |st|, MakeFrame(st, Some(f)).0);
      (args.car.Cons? || args.car.Null?) && p.Fail? ==> EvalLetrec(fuel, args, f, st) == Fail(p.error)
    ensures var p := Placeholders(args.car, |st|, MakeFrame(st, Some(f)).0);
      (args.car.Cons? || args.car.Null?) && p.Ok? ==>
        var st3 := ReverseFrame(p.value, |st|);
        Valid(S, st3) && BindingsWF(S, args.car) && Plain(args.car) && Placed(args.car, |st|, st3) &&
        IsList(args.cdr) && WFList(S, args.cdr) && Plain(args.cdr) &&
        var r := LetrecInits(fuel, args.car, |st|, st3);
        EvalLetrec(fuel, args, f, st) == if r.Fail? then Fail(r.error) else EvalBody(fuel, args.cdr, |st|, r.value)
  {
    var (st1, g) := MakeFrame(st, Some(f));
    ValidMakeFrame(S, st, Some(f));
    var p := Placeholders(args.car, g, st1);
    if (args.car.Cons? || args.car.Null?) && p.Ok? {
      PlaceholdersPlace(args.car, g, st1);
      ReverseFrameValid(p.value, g);
      PlacedGrows(args.car, g, p.value, ReverseFrame(p.value, g));
      var st3 := ReverseFrame(p.value, g);
      var r := LetrecInits(fuel, args.car, g, st3);
      if r.Ok? {
        var b := EvalBody(fuel, args.cdr, g, r.value);
        if b.Ok? {
          assert b == Ok((b.value.0, b.value.1));
        }
      }
    }
  }

  /**
   * letrec's first loop and the reversal on one binding: the new frame
   * holds x bound to UNSPECIFIED.
   */
  lemma LetrecPlaceholders(x: string, e: Value, f: nat, st: Store)
    requires Valid(S, st) && f < |st|
    ensures var st1 := st + [Frame([Binding(x, Unspecified)], Some(f))];
      var bl := Cons(Cons(Symbol(x), Cons(e, Null)), Null);
      Valid(S, st1) && Grows(MakeFrame(st, Some(f)).0, st1) &&
      Placeholders(bl, |st|, MakeFrame(st, Some(f)).0) == Ok(st1) &&
      ReverseFrame(st1, |st|) == st1 && Placed(bl, |st|, st1)
  {
    var (st0, g) := MakeFrame(st, Some(f));
    ValidMakeFrame(S, st, Some(f));
    var bl := Cons(Cons(Symbol(x), Cons(e, Null)), Null);
    var st1 := st + [Frame([Binding(x, Unspecified)], Some(f))];
    PlaceholderStore(x, f, st);
    ValidWithBinding(S, st0, g, Symbol(x), Unspecified);
    assert Placeholders(bl, g, st0) == Ok(st1) by {
      assert Placeholders(Null, g, st1) == Ok(st1);
    }
    assert ReverseFrame(st1, |st|) == st1 by {
      assert Reversed([Binding(x, Unspecified)]) == [Binding(x, Unspecified)] by {
        assert [Binding(x, Unspecified)][1..] == [];
      }
    }
    PlaceholdersPlace(bl, g, st0);
  }

  /** addBinding of the placeholder into the fresh letrec frame. */
  lemma PlaceholderStore(x: string, f: nat, st: Store)
    ensures WithBinding(MakeFrame(st, Some(f)).0, |st|, Symbol(x), Unspecified)
      == Ok(st + [Frame([Binding(x, Unspecified)], Some(f))])
  {
    var st0 := MakeFrame(st, Some(f)).0;
    var st1 := st + [Frame([Binding(x, Unspecified)], Some(f))];
    var w := WithBinding(st0, |st|, Symbol(x), Unspecified).value;
    assert w[|st|] == st1[|st|];
    forall i | 0 <= i < |st| ensures w[i] == st1[i] {
      assert st0[..|st|][i] == st[i];
    }
    assert w == st1;
  }

  /** evalLetrec on one binding: the placeholder store, then the second loop, then the body. */
  lemma LetrecOneSteps(fuel: nat, x: string, e: Value, f: nat, st: Store)
    requires Valid(S, st) && f < |st| && WF(S, e) && Plain(e)
    ensures OneBinding("letrec", x, e).cdr == Cons(Cons(Cons(Symbol(x), Cons(e, Null)), Null), Cons(Symbol(x), Null))
    ensures IsList(OneBinding("letrec", x, e).cdr) && Plain(OneBinding("letrec", x, e).cdr)
    ensures FormWF(S, "letrec", OneBinding("letrec", x, e).cdr)
    ensures Valid(S, st + [Frame([Binding(x, Unspecified)], Some(f))])
    ensures var args := OneBinding("letrec", x, e).cdr;
      var st1 := st + [Frame([Binding(x, Unspecified)], Some(f))];
      BindingsWF(S, args.car) && Plain(args.car) && Placed(args.car, |st|, st1) &&
      var r := LetrecInits(fuel, args.car, |st|, st1);
      EvalLetrec(fuel, args, f, st) == if r.Fail? then Fail(r.error) else EvalBody(fuel, args.cdr, |st|, r.value)
  {
    OneBindingWF(S, "letrec", x, e);
    LetrecPlaceholders(x, e, f, st);
    var args := OneBinding("letrec", x, e).cdr;
    assert Plain(args.car);
  }

  /** letrec's second loop on one binding: x's cell in frame g gets e's value, evaluated in g. */
  lemma LetrecInitsOne(fuel: nat, x: string, e: Value, g: nat, st: Store)
    requires Valid(S, st) && g < |st| && WF(S, e) && Plain(e) && BoundIn(st[g].bindings, x)
    ensures var bl := Cons(Cons(Symbol(x), Cons(e, Null)), Null);
      BindingsWF(S, bl) && Plain(bl) && Placed(bl, g, st)
    ensures var bl := Cons(Cons(Symbol(x), Cons(e, Null)), Null);
      Eval(fuel, e, g, st).Fail? ==> LetrecInits(fuel, bl, g, st) == Fail(Eval(fuel, e, g, st).error)
    ensures var bl := Cons(Cons(Symbol(x), Cons(e, Null)), Null);
      Eval(fuel, e, g, st).Ok? ==>
        var r := LetrecInits(fuel, bl, g, st);
        r.Ok? && LookUp(r.value, g, x) == Ok(Eval(fuel, e, g, st).value.0)
  {
    var b := Cons(Symbol(x), Cons(e, Null));
    var bl := Cons(b, Null);
    assert Plain(Null) && Plain(Symbol(x)) && Plain(Cons(e, Null)) && Plain(b);
    assert BindingsWF(S, Null) && Placed(Null, g, st);
    if Eval(fuel, e, g, st).Ok? {
      var (v, st2) := Eval(fuel, e, g, st).value;
      GrowsKeeps(st, st2, g, x);
      var st3 := SetBinding(st2, g, x, v);
      ValidSetBinding(S, st2, g, x, v);
      assert LetrecInits(fuel, bl.cdr, g, st3) == Ok(st3);
      assert LetrecInits(fuel, bl, g, st) == Ok(st3);
      assert Find(st2, g, x) == Ok(g);
      LookUpAfterSet(st2, g, x, v);
    }
  }

  /**
   * (let ((x e)) x): e is evaluated in the enclosing frame (after the new
   * frame is made), its value bound to x in the new frame, and the body
   * reads it back from there.
   */
  lemma LetInitInOuterFrame(fuel: nat, x: string, e: Value, f: nat, st: Store)
    requires Valid(S, st) && f < |st| && WF(S, e) && Plain(e) && 0 < fuel
    ensures WF(S, OneBinding("let", x, e)) && Plain(OneBinding("let", x, e))
    ensures Valid(S, MakeFrame(st, Some(f)).0)
    ensures var st1 := MakeFrame(st, Some(f)).0;
      Eval(fuel, e, f, st1).Fail? ==>
        Eval(fuel + 1, OneBinding("let", x, e), f, st) == Fail(Eval(fuel, e, f, st1).error)
    ensures var st1 := MakeFrame(st, Some(f)).0;
      Eval(fuel, e, f, st1).Ok? ==>
        var (v, st2) := Eval(fuel, e, f, st1).value;
        var r := Eval(fuel + 1, OneBinding("let", x, e), f, st);
        (r.Ok? <==> !BoundIn(st2[|st|].bindings, x)) && (r.Ok? ==> r.value.0 == v)
  {
    OneBindingWF(S, "let", x, e);
    var form := OneBinding("let", x, e);
    var args := form.cdr;
    assert form == Cons(Symbol("let"), args);
    assert Eval(fuel + 1, form, f, st) == EvalForm(fuel, Symbol("let"), args, f, st);
    assert EvalForm(fuel, Symbol("let"), args, f, st) == EvalLet(fuel, args, f, st) by {
      assert "let" != "if";
    }
    LetOne(fuel, x, e, f, st);
  }

  /** evalLet on the binding list ((x e)) and the body x. */
  lemma LetOne(fuel: nat, x: string, e: Value, f: nat, st: Store)
    requires Valid(S, st) && f < |st| && WF(S, e) && Plain(e) && 0 < fuel
    ensures var args := Cons(Cons(Cons(Symbol(x), Cons(e, Null)), Null), Cons(Symbol(x), Null));
      IsList(args) && FormWF(S, "let", args) && Plain(args)
    ensures Valid(S, MakeFrame(st, Some(f)).0)
    ensures var st1 := MakeFrame(st, Some(f)).0;
      var args := Cons(Cons(Cons(Symbol(x), Cons(e, Null)), Null), Cons(Symbol(x), Null));
      Eval(fuel, e, f, st1).Fail? ==> EvalLet(fuel, args, f, st) == Fail(Eval(fuel, e, f, st1).error)
    ensures var st1 := MakeFrame(st, Some(f)).0;
      var args := Cons(Cons(Cons(Symbol(x), Cons(e, Null)), Null), Cons(Symbol(x), Null));
      Eval(fuel, e, f, st1).Ok? ==>
        var (v, st2) := Eval(fuel, e, f, st1).value;
        var r := EvalLet(fuel, args, f, st);
        (r.Ok? <==> !BoundIn(st2[|st|].bindings, x)) && (r.Ok? ==> r.value.0 == v)
  {
    OneBindingWF(S, "let", x, e);
    var args := Cons(Cons(Cons(Symbol(x), Cons(e, Null)), Null), Cons(Symbol(x), Null));
    LetSteps(fuel, args, f, st);
    var (st1, g) := MakeFrame(st, Some(f));
    LetBindingsOne(fuel, x, e, f, g, st1);
    if Eval(fuel, e, f, st1).Ok? {
      var (v, st2) := Eval(fuel, e, f, st1).value;
      var w := WithBinding(st2, g, Symbol(x), v);
      if w.Ok? {
        LookUpWithBinding(st2, g, Symbol(x), v, g, x);
        ValidWithBinding(S, st2, g, Symbol(x), v);
        BodyOfSymbol(fuel, x, g, w.value);
      }
    }
  }

  /** evalLet on a binding list and a body: a new frame, the binding loop in it, then the body. */
  lemma LetSteps(fuel: nat, args: Value, f: nat, st: Store)
    requires Valid(S, st) && f < |st| && IsList(args) && FormWF(S, "let", args) && Plain(args)
    requires args.Cons? && args.cdr.Cons? && args.car.Cons?
    ensures Valid(S, MakeFrame(st, Some(f)).0)
    ensures BindingsWF(S, args.car) && Plain(args.car) && Plain(args.cdr) && IsList(args.cdr) && WFList(S, args.cdr)
    ensures var r := LetBindings(fuel, args.car, f, |st|, MakeFrame(st, Some(f)).0);
      EvalLet(fuel, args, f, st) == if r.Fail? then Fail(r.error) else EvalBody(fuel, args.cdr, |st|, r.value)
  {
    ValidMakeFrame(S, st, Some(f));
    var r := LetBindings(fuel, args.car, f, |st|, MakeFrame(st, Some(f)).0);
    if r.Ok? {
      var b := EvalBody(fuel, args.cdr, |st|, r.value);
      if b.Ok? {
        assert b == Ok((b.value.0, b.value.1));
      }
    }
  }

  /** evalLet's binding loop on the one binding (x e): e's value, then addBinding in frame g. */
  lemma LetBindingsOne(fuel: nat, x: string, e: Value, f: nat, g: nat, st: Store)
    requires Valid(S, st) && f < |st| && g < |st| && WF(S, e) && Plain(e)
    ensures var bl := Cons(Cons(Symbol(x), Cons(e, Null)), Null);
      BindingsWF(S, bl) && Plain(bl)
    ensures var bl := Cons(Cons(Symbol(x), Cons(e, Null)), Null);
      Eval(fuel, e, f, st).Fail? ==> LetBindings(fuel, bl, f, g, st) == Fail(Eval(fuel, e, f, st).error)
    ensures var bl := Cons(Cons(Symbol(x), Cons(e, Null)), Null);
      Eval(fuel, e, f, st).Ok? ==>
        var (v, st2) := Eval(fuel, e, f, st).value;
        LetBindings(fuel, bl, f, g, st) == WithBinding(st2, g, Symbol(x), v)
  {
    var b := Cons(Symbol(x), Cons(e, Null));
    var bl := Cons(b, Null);
    assert Plain(Null) && Plain(Symbol(x)) && Plain(Cons(e, Null)) && Plain(b);
    assert bl.car == b && b.car == Symbol(x) && b.cdr.car == e;
    if Eval(fuel, e, f, st).Ok? {
      var (v, st2) := Eval(fuel, e, f, st).value;
      var w := WithBinding(st2, g, Symbol(x), v);
      if w.Ok? {
        ValidWithBinding(S, st2, g, Symbol(x), v);
        assert LetBindings(fuel, Null, f, g, w.value) == Ok(w.value);
      }
    }
  }

  /**
   * let's binding loop, on any binding list: it succeeds only on a list of
   * pairs whose names are distinct symbols, none bound in the new frame
   * before, and each is bound there afterwards. So a repeated name, or one
   * already bound in the frame, makes let fail.
   */
  lemma {:induction false} LetBindsDistinctNames(fuel: nat, bl: Value, f: nat, g: nat, st: Store)
    requires Valid(S, st) && f < |st| && g < |st| && BindingsWF(S, bl) && Plain(bl)
    ensures var r := LetBindings(fuel, bl, f, g, st);
      r.Ok? ==>
        PairList(bl) && DistinctSymbols(BindingNames(bl)) &&
        forall i | 0 <= i < |BindingNames(bl)| ::
          !BoundIn(st[g].bindings, BindingNames(bl)[i].name) && BoundIn(r.value[g].bindings, BindingNames(bl)[i].name)
    decreases bl
  {
    var r := LetBindings(fuel, bl, f, g, st);
    if r.Ok? && bl.Cons? {
      assert Plain(bl.car) && Plain(bl.car.cdr);
      var (v, st1) := Eval(fuel, bl.car.cdr.car, f, st).value;
      var st2 := WithBinding(st1, g, bl.car.car, v).value;
      ValidWithBinding(S, st1, g, bl.car.car, v);
      LetBindsDistinctNames(fuel, bl.cdr, f, g, st2);
      assert r == LetBindings(fuel, bl.cdr, f, g, st2);
      assert forall y :: BoundIn(st[g].bindings, y) ==> BoundIn(st1[g].bindings, y);
      assert forall y :: BoundIn(st2[g].bindings, y) ==> BoundIn(r.value[g].bindings, y);
      FreshNamesCons(bl, v, st[g].bindings, st1[g].bindings, r.value[g].bindings);
    }
  }

  /** A body that is one symbol gives the value that symbol is bound to. */
  lemma BodyOfSymbol(fuel: nat, x: string, g: nat, st: Store)
    requires Valid(S, st) && g < |st| && 0 < fuel && LookUp(st, g, x).Ok?
    ensures WFList(S, Cons(Symbol(x), Null)) && Plain(Cons(Symbol(x), Null))
    ensures EvalBody(fuel, Cons(Symbol(x), Null), g, st) == Ok((LookUp(st, g, x).value, st))
  {
    assert WF(S, Symbol(x)) && Plain(Symbol(x));
    assert Eval(fuel, Symbol(x), g, st) == Ok((LookUp(st, g, x).value, st));
  }

  /**
   * (letrec ((x e)) x): the new frame binds x (to UNSPECIFIED) before e is
   * evaluated, and e is evaluated in that frame, so a closure made by e
   * captures the frame in which x ends up bound to e's value.
   */
  lemma LetrecInitInNewFrame(fuel: nat, x: string, e: Value, f: nat, st: Store)
    requires Valid(S, st) && f < |st| && WF(S, e) && Plain(e) && 0 < fuel
    ensures WF(S, OneBinding("letrec", x, e)) && Plain(OneBinding("letrec", x, e))
    ensures Valid(S, st + [Frame([Binding(x, Unspecified)], Some(f))])
    ensures var st1 := st + [Frame([Binding(x, Unspecified)], Some(f))];
      Eval(fuel, e, |st|, st1).Fail? ==>
        Eval(fuel + 1, OneBinding("letrec", x, e), f, st) == Fail(Eval(fuel, e, |st|, st1).error)
    ensures var st1 := st + [Frame([Binding(x, Unspecified)], Some(f))];
      Eval(fuel, e, |st|, st1).Ok? ==>
        var v := Eval(fuel, e, |st|, st1).value.0;
        var r := Eval(fuel + 1, OneBinding("letrec", x, e), f, st);
        r.Ok? && r.value.0 == v && |st| < |r.value.1| && LookUp(r.value.1, |st|, x) == Ok(v)
  {
    OneBindingWF(S, "letrec", x, e);
    var form := OneBinding("letrec", x, e);
    var args := form.cdr;
    assert form == Cons(Symbol("letrec"), args);
    assert Eval(fuel + 1, form, f, st) == EvalForm(fuel, Symbol("letrec"), args, f, st);
    assert EvalForm(fuel, Symbol("letrec"), args, f, st) == EvalLetrec(fuel, args, f, st) by {
      assert "letrec" != "if" && "letrec" != "let";
    }
    var st1 := st + [Frame([Binding(x, Unspecified)], Some(f))];
    LetrecOneSteps(fuel, x, e, f, st);
    LetrecInitsOne(fuel, x, e, |st|, st1);
    if Eval(fuel, e, |st|, st1).Ok? {
      var st4 := LetrecInits(fuel, args.car, |st|, st1).value;
      BodyOfSymbol(fuel, x, |st|, st4);
    }
  }

  // ---------------------------------------------------------------------
  // Application

  /**
   * apply: an operator that is neither a closure nor a primitive is an
   * error; a primitive gets the argument list as it is, and leaves the
   * store as it was.
   */
  lemma ApplyNonClosure(fuel: nat, op: Value, args: Value, st: Store)
    requires Valid(S, st) && ValueOk(S, op, |st|) && IsList(args) && ValueOk(S, args, |st|)
    requires !op.Closure?
    ensures !op.Primitive? ==> Apply(fuel, op, args, st) == Fail(NotAFunction)
    ensures op.Primitive? && ApplyPrimitive(op.op, args).Fail? ==>
      Apply(fuel, op, args, st) == Fail(ApplyPrimitive(op.op, args).error)
    ensures op.Primitive? && ApplyPrimitive(op.op, args).Ok? ==>
      Apply(fuel, op, args, st) == Ok((ApplyPrimitive(op.op, args).value, st))
  {
  }

  /**
   * Applying a closure whose parameters are distinct symbols: a wrong
   * argument count is an error; otherwise the body is evaluated in a new
   * frame under the captured one, where each parameter refers to its
   * argument and every other name to what it refers to from the frame the
   * closure captured (static scope).
   */
  lemma ApplyClosure(fuel: nat, c: Value, args: Value, st: Store, y: string)
    requires Valid(S, st) && c.Closure? && ValueOk(S, c, |st|) && IsList(args) && ValueOk(S, args, |st|)
    requires DistinctSymbols(Elems(c.params))
    ensures Valid(S, MakeFrame(st, Some(c.env)).0) && ValueOk(S, args, |st| + 1)
    ensures |Elems(c.params)| < |Elems(args)| ==> Apply(fuel, c, args, st) == Fail(TooManyArgs)
    ensures |Elems(c.params)| > |Elems(args)| ==> Apply(fuel, c, args, st) == Fail(TooFewArgs)
    ensures |Elems(c.params)| == |Elems(args)| ==>
      var b := BindParams(S, MakeFrame(st, Some(c.env)).0, |st|, c.params, args);
      b.Ok? &&
      (forall i | 0 <= i < |Elems(args)| :: LookUp(b.value, |st|, Elems(c.params)[i].name) == Ok(Elems(args)[i])) &&
      ((forall i | 0 <= i < |Elems(args)| :: Elems(c.params)[i].name != y) ==>
        LookUp(b.value, |st|, y) == LookUp(st, c.env, y)) &&
      Apply(fuel, c, args, st) == EvalBody(fuel, c.body, |st|, b.value)
  {
    var (st1, g) := MakeFrame(st, Some(c.env));
    ValidMakeFrame(S, st, Some(c.env));
    ValueOkMono(S, args, |st|, |st1|);
    BindParamsMeans(S, st1, g, c.params, args);
    if |Elems(c.params)| == |Elems(args)| {
      if forall i | 0 <= i < |Elems(args)| :: Elems(c.params)[i].name != y {
        BindParamsKeeps(S, st1, g, c.params, args, g, y);
        LookUpMakeFrame(st, c.env, y);
      }
    }
  }

  /**
   * Numbers, strings and Booleans evaluate to themselves; a symbol to the
   * value of the binding it refers to, and past the root it is unbound.
   */
  lemma AtomsEvaluate(fuel: nat, v: Value, x: string, f: nat, st: Store)
    requires Valid(S, st) && f < |st| && SelfEvaluating(v)
    ensures WF(S, v) && Plain(v) && WF(S, Symbol(x)) && Plain(Symbol(x))
    ensures Eval(fuel + 1, v, f, st) == Ok((v, st))
    ensures LookUp(st, f, x).Ok? ==> Eval(fuel + 1, Symbol(x), f, st) == Ok((LookUp(st, f, x).value, st))
    ensures LookUp(st, f, x).Fail? ==> Eval(fuel + 1, Symbol(x), f, st) == Fail(Unbound(x))
  {
  }

  /**
   * The expressions of a list evaluated front to back in frame f, each from
   * the store the one before it left: their values in source order, or the
   * first error. evalEach's accumulating walk and the body walk of
   * begin, let, letrec and apply are measured against it.
   */
  function EvalInOrder(fuel: nat, es: Value, f: nat, st: Store): (r: Result<(seq<Value>, Store)>)
    requires Valid(S, st) && f < |st| && IsList(es) && WFList(S, es) && Plain(es)
    ensures r.Ok? ==> |r.value.0| == |Elems(es)| && Valid(S, r.value.1) && Grows(st, r.value.1)
    ensures r.Ok? ==> ElemsOk(S, r.value.0, |r.value.1|)
    decreases es
  {
    if es.Null? then
      GrowsRefl(st);
      Ok(([], st))
    else
      var (v, st1) :- Eval(fuel, es.car, f, st);
      var (vs, st2) :- EvalInOrder(fuel, es.cdr, f, st1);
      ValueOkMono(S, v, |st1|, |st2|);
      GrowsTrans(st, st1, st2);
      Ok(([v] + vs, st2))
  }

  /**
   * evalEach conses each operand's value onto the accumulator as it goes:
   * it ends with the in-order values reversed onto the accumulator, in the
   * store the last operand left, and the first error stops it.
   */
  lemma {:induction false} EvalEachInOrder(fuel: nat, args: Value, f: nat, st: Store, acc: Value)
    requires Valid(S, st) && f < |st| && IsList(args) && WFList(S, args) && Plain(args)
    requires IsList(acc) && ValueOk(S, acc, |st|)
    ensures var r := EvalInOrder(fuel, args, f, st);
      EvalEach(fuel, args, f, st, acc) ==
        if r.Fail? then Fail(r.error) else Ok((ReverseOnto(FromSeq(r.value.0), acc), r.value.1))
    decreases args
  {
    if args.Cons? && Eval(fuel, args.car, f, st).Ok? {
      var (v, st1) := Eval(fuel, args.car, f, st).value;
      ValueOkMono(S, acc, |st|, |st1|);
      EvalEachInOrder(fuel, args.cdr, f, st1, Cons(v, acc));
      EachStep(fuel, args, f, st, acc, v, st1);
    }
  }

  /** One operand of evalEach: its value goes onto the accumulator and the walk goes on. */
  lemma EachStep(fuel: nat, args: Value, f: nat, st: Store, acc: Value, v: Value, st1: Store)
    requires Valid(S, st) && f < |st| && IsList(args) && args.Cons? && WFList(S, args) && Plain(args)
    requires IsList(acc) && ValueOk(S, acc, |st|) && Eval(fuel, args.car, f, st) == Ok((v, st1))
    ensures Valid(S, st1) && ValueOk(S, Cons(v, acc), |st1|)
    ensures EvalEach(fuel, args, f, st, acc) == EvalEach(fuel, args.cdr, f, st1, Cons(v, acc))
    ensures var r := EvalInOrder(fuel, args.cdr, f, st1);
      EvalInOrder(fuel, args, f, st) == if r.Fail? then Fail(r.error) else Ok(([v] + r.value.0, r.value.1))
    ensures forall vs :: ReverseOnto(FromSeq([v] + vs), acc) == ReverseOnto(FromSeq(vs), Cons(v, acc))
  {
    ValueOkMono(S, acc, |st|, |st1|);
    InOrderStep(fuel, args, f, st, v, st1);
    forall vs ensures ReverseOnto(FromSeq([v] + vs), acc) == ReverseOnto(FromSeq(vs), Cons(v, acc)) {
      FromSeqCons(v, vs);
    }
  }

  /**
   * From the empty accumulator, evalEach's list reversed holds exactly the
   * operands' values in source order; it fails exactly when an operand
   * does, with that operand's error.
   */
  lemma OperandsInOrder(fuel: nat, args: Value, f: nat, st: Store)
    requires Valid(S, st) && f < |st| && IsList(args) && WFList(S, args) && Plain(args)
    ensures var r := EvalInOrder(fuel, args, f, st);
      var e := EvalEach(fuel, args, f, st, Null);
      (e.Fail? <==> r.Fail?) && (r.Fail? ==> e.error == r.error) &&
      (r.Ok? ==> e.value.1 == r.value.1 && Elems(ReverseList(e.value.0)) == r.value.0)
  {
    assert ValueOk(S, Null, |st|);
    EvalEachInOrder(fuel, args, f, st, Null);
    var r := EvalInOrder(fuel, args, f, st);
    if r.Ok? {
      ReverseListTwice(FromSeq(r.value.0));
    }
  }

  /**
   * A body evaluates each of its expressions in turn and gives the value of
   * the last, in the store the last left; the first error stops it.
   */
  lemma {:induction false} EvalBodyInOrder(fuel: nat, body: Value, g: nat, st: Store)
    requires Valid(S, st) && g < |st| && IsList(body) && body.Cons? && WFList(S, body) && Plain(body)
    ensures var r := EvalInOrder(fuel, body, g, st);
      EvalBody(fuel, body, g, st) ==
        if r.Fail? then Fail(r.error) else Ok((r.value.0[|r.value.0| - 1], r.value.1))
    decreases body
  {
    if Eval(fuel, body.car, g, st).Ok? {
      var (v, st1) := Eval(fuel, body.car, g, st).value;
      if body.cdr.Cons? {
        EvalBodyInOrder(fuel, body.cdr, g, st1);
      }
      BodyStep(fuel, body, g, st, v, st1);
    }
  }

  /** One expression of a body: the rest is evaluated from the store it left. */
  lemma BodyStep(fuel: nat, body: Value, g: nat, st: Store, v: Value, st1: Store)
    requires Valid(S, st) && g < |st| && IsList(body) && body.Cons? && WFList(S, body) && Plain(body)
    requires Eval(fuel, body.car, g, st) == Ok((v, st1))
    ensures Valid(S, st1)
    ensures body.cdr.Null? ==> EvalBody(fuel, body, g, st) == Ok((v, st1))
    ensures body.cdr.Cons? ==> EvalBody(fuel, body, g, st) == EvalBody(fuel, body.cdr, g, st1)
    ensures var r := EvalInOrder(fuel, body.cdr, g, st1);
      EvalInOrder(fuel, body, g, st) == if r.Fail? then Fail(r.error) else Ok(([v] + r.value.0, r.value.1))
  {
    InOrderStep(fuel, body, g, st, v, st1);
  }

  /** One expression of the in-order walk: the rest is evaluated from the store it left. */
  lemma InOrderStep(fuel: nat, es: Value, f: nat, st: Store, v: Value, st1: Store)
    requires Valid(S, st) && f < |st| && IsList(es) && es.Cons? && WFList(S, es) && Plain(es)
    requires Eval(fuel, es.car, f, st) == Ok((v, st1))
    ensures Valid(S, st1)
    ensures var r := EvalInOrder(fuel, es.cdr, f, st1);
      EvalInOrder(fuel, es, f, st) == if r.Fail? then Fail(r.error) else Ok(([v] + r.value.0, r.value.1))
  {
  }

  /**
   * (begin) is VOID; (begin e1 ... en) evaluates each expression in turn
   * and gives the value of the last, in the store the last left.
   */
  lemma BeginReturnsLast(fuel: nat, operands: seq<Value>, f: nat, st: Store)
    requires Valid(S, st) && f < |st|
    requires forall i | 0 <= i < |operands| :: WF(S, operands[i]) && Plain(operands[i])
    ensures WFList(S, FromSeq(operands)) && Plain(FromSeq(operands))
    ensures WF(S, Form("begin", operands)) && Plain(Form("begin", operands))
    ensures var r := EvalInOrder(fuel, FromSeq(operands), f, st);
      Eval(fuel + 1, Form("begin", operands), f, st) ==
        if operands == [] then Ok((Void, st))
        else if r.Fail? then Fail(r.error)
        else Ok((r.value.0[|operands| - 1], r.value.1))
  {
    var args := FromSeq(operands);
    FromSeqWF(S, operands);
    assert "begin" != "quote" && "begin" != "if" && "begin" != "let" && "begin" != "letrec";
    assert "begin" != "define" && "begin" != "lambda" && "begin" != "set!";
    if operands != [] {
      EvalBodyInOrder(fuel, args, f, st);
    }
    assert IsList(args) && FormWF(S, "begin", args);
    assert Eval(fuel + 1, Form("begin", operands), f, st) == EvalForm(fuel, Symbol("begin"), args, f, st);
    assert EvalForm(fuel, Symbol("begin"), args, f, st) == EvalBegin(fuel, args, f, st);
  }

  /**
   * A number in operator position is rejected before anything is
   * evaluated, whatever the operands are.
   */
  lemma NumberOperatorRejected(fuel: nat, n: int, args: Value, f: nat, st: Store)
    requires Valid(S, st) && f < |st| && IsList(args) && WFList(S, args) && Plain(args)
    ensures WF(S, Cons(Int(n), args)) && Plain(Cons(Int(n), args))
    ensures Eval(fuel + 1, Cons(Int(n), args), f, st) == Fail(TypeNotAFunction)
  {
  }

  /** Once the operator is evaluated, an application goes on from the store it left. */
  lemma CallOperator(fuel: nat, head: Value, args: Value, f: nat, st: Store, op: Value, st1: Store)
    requires Valid(S, st) && f < |st| && WF(S, head) && Plain(head)
    requires IsList(args) && WFList(S, args) && Plain(args)
    requires Eval(fuel, head, f, st) == Ok((op, st1))
    ensures Valid(S, st1) && Grows(st, st1) && ValueOk(S, op, |st1|)
    ensures EvalCall(fuel, head, args, f, st) == EvalOperands(fuel, head, op, args, f, st, st1)
  {
  }

  /** Once the operands are evaluated, an application is apply's result. */
  lemma OperandsApply(fuel: nat, head: Value, op: Value, args: Value, f: nat, st: Store, st1: Store, rev: Value, st2: Store)
    requires Valid(S, st) && Valid(S, st1) && Grows(st, st1) && f < |st| && ValueOk(S, op, |st1|)
    requires IsList(args) && WFList(S, args) && Plain(args)
    requires EvalEach(fuel, args, f, st1, Null) == Ok((rev, st2))
    ensures Valid(S, st2) && IsList(rev) && ValueOk(S, op, |st2|) && ValueOk(S, ReverseList(rev), |st2|)
    ensures EvalOperands(fuel, head, op, args, f, st, st1) == Apply(fuel, op, if NeedsReversal(head) then ReverseList(rev) else rev, st2)
  {
    ValueOkMono(S, op, |st1|, |st2|);
    ReverseListOk(S, rev, |st2|);
  }

  /**
   * An application: once the operator is evaluated, the operands are
   * evaluated in source order from the store it left, and the operator is
   * applied to their values in source order, except that an operator named
   * car or cdr gets them last first. The first error stops it.
   */
  lemma CallPassesArgumentsInOrder(fuel: nat, head: Value, args: Value, f: nat, st: Store)
    requires Valid(S, st) && f < |st| && WF(S, head) && Plain(head)
    requires IsList(args) && WFList(S, args) && Plain(args)
    ensures Eval(fuel, head, f, st).Fail? ==> EvalCall(fuel, head, args, f, st) == Fail(Eval(fuel, head, f, st).error)
    ensures Eval(fuel, head, f, st).Ok? ==>
      var (op, st1) := Eval(fuel, head, f, st).value;
      var r := EvalInOrder(fuel, args, f, st1);
      (r.Fail? ==> EvalCall(fuel, head, args, f, st) == Fail(r.error)) &&
      (r.Ok? ==>
        ValueOk(S, op, |r.value.1|) && ValueOk(S, FromSeq(r.value.0), |r.value.1|) &&
        ValueOk(S, ReverseList(FromSeq(r.value.0)), |r.value.1|) &&
        EvalCall(fuel, head, args, f, st) ==
          Apply(fuel, op, if NeedsReversal(head) then FromSeq(r.value.0) else ReverseList(FromSeq(r.value.0)), r.value.1))
  {
    if Eval(fuel, head, f, st).Ok? {
      var (op, st1) := Eval(fuel, head, f, st).value;
      OperandsThenApply(fuel, head, args, f, st, op, st1);
    }
  }

  /** An application once its operator has been evaluated to op in store st1. */
  lemma OperandsThenApply(fuel: nat, head: Value, args: Value, f: nat, st: Store, op: Value, st1: Store)
    requires Valid(S, st) && f < |st| && WF(S, head) && Plain(head)
    requires IsList(args) && WFList(S, args) && Plain(args)
    requires Eval(fuel, head, f, st) == Ok((op, st1))
    ensures Valid(S, st1) && f < |st1|
    ensures var r := EvalInOrder(fuel, args, f, st1);
      (r.Fail? ==> EvalCall(fuel, head, args, f, st) == Fail(r.error)) &&
      (r.Ok? ==>
        ValueOk(S, op, |r.value.1|) && ValueOk(S, FromSeq(r.value.0), |r.value.1|) &&
        ValueOk(S, ReverseList(FromSeq(r.value.0)), |r.value.1|) &&
        EvalCall(fuel, head, args, f, st) ==
          Apply(fuel, op, if NeedsReversal(head) then FromSeq(r.value.0) else ReverseList(FromSeq(r.value.0)), r.value.1))
  {
    CallOperator(fuel, head, args, f, st, op, st1);
    assert ValueOk(S, Null, |st1|);
    EvalEachInOrder(fuel, args, f, st1, Null);
    var r := EvalInOrder(fuel, args, f, st1);
    if r.Ok? {
      var vs := FromSeq(r.value.0);
      ElemsOfOk(S, vs, |r.value.1|);
      ReverseListTwice(vs);
      OperandsApply(fuel, head, op, args, f, st, st1, ReverseList(vs), r.value.1);
      ReverseListOk(S, vs, |r.value.1|);
    }
  }
}
