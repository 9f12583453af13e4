// The tagged Value union shared by every stage of the interpreter, the
// fatal error messages, and the cons-list view of values.

module Values {

  datatype Option<T> = None | Some(value: T)

  /** The primitive procedures a PRIMITIVE_TYPE value can point to. */
  datatype PrimOp =
    | PlusOp | MinusOp | EqualOp | NullOp | CarOp | CdrOp | ConsOp | GreaterOp | LessOp

  /**
   * One constructor per value type. Double carries an idealised real in
   * place of an IEEE double; Closure names its captured frame by its index
   * in the interpreter's frame store. Open and Close are the parenthesis
   * tokens (their text is always "(" and ")").
   */
  datatype Value =
    | Int(i: int)
    | Double(d: real)
    | Str(s: string)
    | Bool(b: bool)
    | Symbol(name: string)
    | Open
    | Close
    | Null
    | Cons(car: Value, cdr: Value)
    | Closure(params: Value, body: Value, env: nat)
    | Primitive(op: PrimOp)
    | Void
    | Unspecified

  /** One constructor per distinct fatal message (every one ends in texit). */
  datatype Error =
    // tokenizer
    | InvalidString | InvalidNumber | InvalidDouble | InvalidSymbol | InvalidBoolean | BadSyntax
    // parser
    | TooManyClose | TooFewClose
    // environments and special forms
    | AlreadyBound(name: string) | BindNonSymbol | Unbound(name: string)
    | UnrecognizedForm | TypeNotAFunction | NotAFunction | TooFewArgs | TooManyArgs
    | IfArity | IfNotBoolean | LetArity | LetBadBinding | LetrecArity | LetrecBadBinding
    | QuoteArity | DefineArity | DefineNonVariable | LambdaArity | LambdaBadParams
    | LambdaNonVariable | LambdaDuplicate | SetArity | SetNonVariable | UsedBeforeInit
    // primitives
    | PlusNonNumber | MinusNoArgs | MinusNonNumber | LessNonNumber | GreaterNonNumber
    | EqualNonNumber | NullArity | CarArity | CarNotPair | CdrArity | CdrNotPair | ConsArity
    // exhausted evaluation fuel (stands for a computation that does not stop)
    | OutOfFuel

  /** A computation that either produces a T or stops with a fatal error. */
  datatype Result<T> = Ok(value: T) | Fail(error: Error) {
    predicate IsFailure() { Fail? }
    function PropagateFailure<U>(): Result<U>
      requires Fail?
    {
      Fail(error)
    }
    function Extract(): T
      requires Ok?
    {
      value
    }
  }

  /** A proper list: a chain of cons cells ending in the empty list. */
  predicate IsList(v: Value) {
    v.Null? || (v.Cons? && IsList(v.cdr))
  }

  /** The elements of a proper list, front to back. */
  function Elems(v: Value): seq<Value>
    requires IsList(v)
  {
    if v.Null? then [] else [v.car] + Elems(v.cdr)
  }

  /** The proper list whose elements are xs. */
  function FromSeq(xs: seq<Value>): (r: Value)
    ensures IsList(r) && Elems(r) == xs
  {
    if xs == [] then Null else Cons(xs[0], FromSeq(xs[1..]))
  }

  /** The list of x then xs is a pair of x and the list of xs. */
  lemma FromSeqCons(x: Value, xs: seq<Value>)
    ensures FromSeq([x] + xs) == Cons(x, FromSeq(xs))
  {
    assert ([x] + xs)[1..] == xs;
  }

  lemma {:induction false} FromSeqElems(v: Value)
    requires IsList(v)
    ensures FromSeq(Elems(v)) == v
  {
    if v.Cons? {
      FromSeqElems(v.cdr);
      assert Elems(v)[1..] == Elems(v.cdr);
    }
  }

  function Reversed<T>(xs: seq<T>): (r: seq<T>)
    ensures |r| == |xs|
  {
    if xs == [] then [] else Reversed(xs[1..]) + [xs[0]]
  }

  lemma {:induction false} ReversedAt<T>(xs: seq<T>, k: nat)
    requires k < |xs|
    ensures Reversed(xs)[k] == xs[|xs| - 1 - k]
  {
    if k < |xs| - 1 {
      ReversedAt(xs[1..], k);
    }
  }

  lemma {:induction false} ReversedAppend<T>(a: seq<T>, b: seq<T>)
    ensures Reversed(a + b) == Reversed(b) + Reversed(a)
  {
    if a == [] {
      assert a + b == b;
    } else {
      assert (a + b)[1..] == a[1..] + b;
      ReversedAppend(a[1..], b);
    }
  }

  lemma {:induction false} ReversedTwice<T>(xs: seq<T>)
    ensures Reversed(Reversed(xs)) == xs
  {
    if xs != [] {
      ReversedAppend(Reversed(xs[1..]), [xs[0]]);
      ReversedTwice(xs[1..]);
    }
  }

  lemma ReversedCons<T>(x: T, xs: seq<T>)
    ensures Reversed([x] + xs) == Reversed(xs) + [x]
  {
    assert ([x] + xs)[1..] == xs;
  }

  // Small facts about sequence concatenation used by the tokenizer and parser proofs.

  lemma SplitAt<T>(a: seq<T>, b: seq<T>)
    ensures (a + b)[..|a|] == a && (a + b)[|a|..] == b
    ensures forall i | 0 <= i < |a| :: (a + b)[i] == a[i]
  {
  }

  lemma AppendAssoc<T>(a: seq<T>, b: seq<T>, c: seq<T>)
    ensures a + b + c == a + (b + c)
  {
  }

  lemma AppendOne<T>(a: seq<T>, x: T, b: seq<T>)
    ensures a + [x] + b == a + ([x] + b)
  {
  }

  /**
   * Element-wise reversal onto an accumulator: each cell's car is moved as
   * a whole, whatever it holds. This is what the in-place pointer reversals
   * of the later stages compute.
   */
  function ReverseOnto(v: Value, acc: Value): (r: Value)
    requires IsList(v) && IsList(acc)
    ensures IsList(r) && Elems(r) == Reversed(Elems(v)) + Elems(acc)
  {
    if v.Null? then acc
    else
      var r := ReverseOnto(v.cdr, Cons(v.car, acc));
      assert Elems(v) == [v.car] + Elems(v.cdr);
      assert Reversed(Elems(v)) == Reversed(Elems(v.cdr)) + [v.car];
      r
  }

  /** The proper list with the elements of v in reverse order. */
  function ReverseList(v: Value): (r: Value)
    requires IsList(v)
    ensures IsList(r) && Elems(r) == Reversed(Elems(v))
  {
    ReverseOnto(v, Null)
  }

  /** Reversing a list twice gives the list back. */
  lemma ReverseListTwice(v: Value)
    requires IsList(v)
    ensures ReverseList(ReverseList(v)) == v
  {
    ReversedTwice(Elems(v));
    FromSeqElems(v);
    FromSeqElems(ReverseList(ReverseList(v)));
  }

  /**
   * The pointer-reversing loop of the parser's final step and of evalEach
   * and letrec: walks the cells once, turning each cell's cdr back towards
   * the previous cell. The source only runs it on a non-empty list (it
   * takes the cdr of the head first).
   */
  method ReverseInPlace(list: Value) returns (r: Value)
    requires list.Cons? && IsList(list)
    ensures r == ReverseList(list)
  {
    var prev := Null;
    var current := list;
    var next := list.cdr;
    while !next.Null?
      invariant IsList(next) && current.Cons? && next == current.cdr
      invariant IsList(prev)
      invariant ReverseOnto(list, Null) == ReverseOnto(current, prev)
      decreases next
    {
      prev := Cons(current.car, prev);
      current := next;
      next := next.cdr;
    }
    r := Cons(current.car, prev);
  }
}
