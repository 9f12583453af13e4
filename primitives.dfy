// The built-in procedures of final-main (primitives-main has +, null?, car,
// cdr and cons, written identically). Each arithmetic or comparison
// primitive walks its argument list in a loop; here each loop is a method
// proved equal to a function on the argument sequence, and the evaluators,
// which are functions, apply the function. C doubles are modelled as exact
// reals and C ints as unbounded integers.

module Primitives {
  import opened Values
  import opened Environments
  import opened Forms

  predicate IsNumber(v: Value) {
    v.Int? || v.Double?
  }

  /** The numeric value of a number, an int converted to a double as C converts it. */
  function Num(v: Value): real
    requires IsNumber(v)
  {
    if v.Int? then v.i as real else v.d
  }

  predicate AllNumbers(xs: seq<Value>) {
    forall i | 0 <= i < |xs| :: IsNumber(xs[i])
  }

  predicate AllInts(xs: seq<Value>) {
    forall i | 0 <= i < |xs| :: xs[i].Int?
  }

  /** The integer sum of a sequence of ints. */
  function IntSum(xs: seq<Value>): int
    requires AllInts(xs)
  {
    if xs == [] then 0 else IntSum(xs[..|xs| - 1]) + xs[|xs| - 1].i
  }

  /** The exact sum of a sequence of numbers. */
  function RealSum(xs: seq<Value>): real
    requires AllNumbers(xs)
  {
    if xs == [] then 0.0 else RealSum(xs[..|xs| - 1]) + Num(xs[|xs| - 1])
  }

  /** On ints the two sums agree. */
  lemma {:induction false} IntSumIsRealSum(xs: seq<Value>)
    requires AllInts(xs)
    ensures IntSum(xs) as real == RealSum(xs)
  {
    if xs != [] {
      IntSumIsRealSum(xs[..|xs| - 1]);
    }
  }

  /** A sum of a sequence split in two is the sum of the sums. */
  lemma {:induction false} RealSumAppend(xs: seq<Value>, ys: seq<Value>)
    requires AllNumbers(xs) && AllNumbers(ys)
    ensures AllNumbers(xs + ys) && RealSum(xs + ys) == RealSum(xs) + RealSum(ys)
    decreases |ys|
  {
    if ys != [] {
      var zs := xs + ys;
      assert zs[..|zs| - 1] == xs + ys[..|ys| - 1];
      RealSumAppend(xs, ys[..|ys| - 1]);
    } else {
      assert xs + ys == xs;
    }
  }

  // ---------------------------------------------------------------------
  // +

  /**
   * primitivePlus: any argument that is not a number is an error; otherwise
   * the sum, an int when every argument is an int (0 for none) and a double
   * as soon as one argument is a double.
   */
  function Plus(xs: seq<Value>): (r: Result<Value>)
    ensures r.Ok? ==> IsNumber(r.value)
  {
    if !AllNumbers(xs) then Fail(PlusNonNumber)
    else if AllInts(xs) then Ok(Int(IntSum(xs)))
    else Ok(Double(RealSum(xs)))
  }

  /** The sum of no arguments is the integer 0, and any number added to it is unchanged in value. */
  lemma PlusIdentity(x: Value)
    requires IsNumber(x)
    ensures Plus([]) == Ok(Int(0))
    ensures Plus([x]).Ok? && Num(Plus([x]).value) == Num(x)
  {
    assert [x][..0] == [] && [x][0] == x;
    assert AllNumbers([x]);
    if x.Int? {
      assert AllInts([x]);
    } else {
      assert !AllInts([x]);
      assert RealSum([x]) == RealSum([x][..0]) + Num(x);
    }
  }

  /** Whatever its type, the result of + has the exact sum as its value. */
  lemma PlusValue(xs: seq<Value>)
    requires AllNumbers(xs)
    ensures Plus(xs).Ok? && IsNumber(Plus(xs).value) && Num(Plus(xs).value) == RealSum(xs)
    ensures Plus(xs).value.Int? <==> AllInts(xs)
  {
    if AllInts(xs) {
      IntSumIsRealSum(xs);
    }
  }

  /** The arguments of + in two groups add up to the sum of the two sums. */
  lemma PlusAssociates(xs: seq<Value>, ys: seq<Value>)
    requires AllNumbers(xs) && AllNumbers(ys)
    ensures Plus(xs + ys).Ok?
    ensures Num(Plus(xs + ys).value) == Num(Plus(xs).value) + Num(Plus(ys).value)
  {
    RealSumAppend(xs, ys);
    PlusValue(xs);
    PlusValue(ys);
    PlusValue(xs + ys);
  }

  /** One element more at the end of a prefix. */
  lemma PrefixSnoc(xs: seq<Value>, k: nat)
    requires k < |xs|
    ensures xs[..k + 1][..k] == xs[..k] && xs[..k + 1][k] == xs[k]
  {
  }

  /** The list cell at position k of a proper list holds element k. */
  lemma ElemsFrom(current: Value, xs: seq<Value>, k: nat)
    requires IsList(current) && k <= |xs| && Elems(current) == xs[k..] && current.Cons?
    ensures k < |xs| && current.car == xs[k] && IsList(current.cdr) && Elems(current.cdr) == xs[k + 1..]
  {
    assert Elems(current) == [current.car] + Elems(current.cdr);
    assert Elems(current)[0] == current.car && Elems(current)[1..] == Elems(current.cdr);
    assert xs[k..][1..] == xs[k + 1..];
  }

  /** primitivePlus's loop, with the int total and the double total kept apart. */
  method PrimitivePlus(args: Value) returns (r: Result<Value>)
    requires IsList(args)
    ensures r == Plus(Elems(args))
  {
    ghost var xs := Elems(args);
    ghost var k := 0;
    var current := args;
    var sumInt := 0;
    var sumDouble := 0.0;
    var allInts := true;
    while !current.Null?
      invariant IsList(current) && 0 <= k <= |xs| && Elems(current) == xs[k..]
      invariant AllNumbers(xs[..k])
      invariant allInts <==> AllInts(xs[..k])
      invariant allInts ==> sumInt == IntSum(xs[..k])
      invariant !allInts ==> sumDouble == RealSum(xs[..k])
      decreases |xs| - k
    {
      ElemsFrom(current, xs, k);
      PrefixSnoc(xs, k);
      var v := current.car;
      if !IsNumber(v) {
        return Fail(PlusNonNumber);
      } else if v.Double? && allInts {
        IntSumIsRealSum(xs[..k]);
        sumDouble := sumInt as real + v.d;
        allInts := false;
      } else if allInts {
        sumInt := sumInt + v.i;
      } else if v.Int? {
        sumDouble := sumDouble + v.i as real;
      } else {
        sumDouble := sumDouble + v.d;
      }
      current := current.cdr;
      k := k + 1;
    }
    assert xs[..k] == xs;
    if allInts {
      return Ok(Int(sumInt));
    } else {
      return Ok(Double(sumDouble));
    }
  }

  // ---------------------------------------------------------------------
  // -

  /**
   * primitiveMinus: no arguments is an error, and so is any argument that is
   * not a number; one argument is negated; otherwise the later arguments are
   * subtracted from the first. The result is a double as soon as one
   * argument is a double.
   */
  function Minus(xs: seq<Value>): (r: Result<Value>)
    ensures r.Ok? ==> IsNumber(r.value)
  {
    if xs == [] then Fail(MinusNoArgs)
    else if !AllNumbers(xs) then Fail(MinusNonNumber)
    else if |xs| == 1 then Ok(if xs[0].Int? then Int(-xs[0].i) else Double(-xs[0].d))
    else if AllInts(xs) then Ok(Int(xs[0].i - IntSum(xs[1..])))
    else Ok(Double(Num(xs[0]) - RealSum(xs[1..])))
  }

  /**
   * Subtraction undoes addition: the difference of several numbers is the
   * first less the sum of the rest, and the negation of one is zero less it.
   */
  lemma MinusIsFirstLessSum(xs: seq<Value>)
    requires AllNumbers(xs) && xs != []
    ensures Minus(xs).Ok? && IsNumber(Minus(xs).value)
    ensures Minus(xs).value.Int? <==> AllInts(xs)
    ensures |xs| == 1 ==> Num(Minus(xs).value) == 0.0 - Num(xs[0])
    ensures |xs| > 1 ==> Num(Minus(xs).value) == Num(xs[0]) - Num(Plus(xs[1..]).value)
  {
    if |xs| > 1 {
      PlusValue(xs[1..]);
      if AllInts(xs) {
        IntSumIsRealSum(xs[1..]);
      }
    }
  }

  lemma {:induction false} IntSumAppend(xs: seq<Value>, ys: seq<Value>)
    requires AllInts(xs) && AllInts(ys)
    ensures AllInts(xs + ys) && IntSum(xs + ys) == IntSum(xs) + IntSum(ys)
    decreases |ys|
  {
    if ys != [] {
      var zs := xs + ys;
      assert zs[..|zs| - 1] == xs + ys[..|ys| - 1];
      IntSumAppend(xs, ys[..|ys| - 1]);
    } else {
      assert xs + ys == xs;
    }
  }

  /** Taking the first element off a sequence of numbers. */
  lemma SumsUncons(ys: seq<Value>)
    requires ys != []
    ensures AllNumbers(ys) <==> IsNumber(ys[0]) && AllNumbers(ys[1..])
    ensures AllInts(ys) <==> ys[0].Int? && AllInts(ys[1..])
    ensures AllNumbers(ys) ==> RealSum(ys) == Num(ys[0]) + RealSum(ys[1..])
    ensures AllInts(ys) ==> IntSum(ys) == ys[0].i + IntSum(ys[1..])
  {
    assert ys == [ys[0]] + ys[1..];
    assert [ys[0]][..0] == [];
    if IsNumber(ys[0]) && AllNumbers(ys[1..]) {
      assert forall i | 1 <= i < |ys| :: ys[i] == ys[1..][i - 1];
    }
    if ys[0].Int? && AllInts(ys[1..]) {
      assert forall i | 1 <= i < |ys| :: ys[i] == ys[1..][i - 1];
    }
    if AllNumbers(ys) {
      assert forall i | 0 <= i < |ys[1..]| :: ys[1..][i] == ys[i + 1];
      RealSumAppend([ys[0]], ys[1..]);
    }
    if AllInts(ys) {
      assert forall i | 0 <= i < |ys[1..]| :: ys[1..][i] == ys[i + 1];
      IntSumAppend([ys[0]], ys[1..]);
    }
  }

  /**
   * The loop of primitiveMinus from a given state: whether every number so
   * far was an int, the int difference and the double difference.
   */
  function MinusLoop(allInts: bool, diffInt: int, diffDouble: real, ys: seq<Value>): Result<Value>
    decreases |ys|
  {
    if ys == [] then Ok(if allInts then Int(diffInt) else Double(diffDouble))
    else if !IsNumber(ys[0]) then Fail(MinusNonNumber)
    else if ys[0].Double? && allInts then MinusLoop(false, diffInt, diffInt as real - ys[0].d, ys[1..])
    else if allInts then MinusLoop(true, diffInt - ys[0].i, diffDouble, ys[1..])
    else MinusLoop(false, diffInt, diffDouble - Num(ys[0]), ys[1..])
  }

  /** The loop subtracts every remaining argument from the running difference. */
  lemma {:induction false} MinusLoopMeans(allInts: bool, diffInt: int, diffDouble: real, ys: seq<Value>)
    ensures !AllNumbers(ys) ==> MinusLoop(allInts, diffInt, diffDouble, ys) == Fail(MinusNonNumber)
    ensures AllNumbers(ys) ==> (MinusLoop(allInts, diffInt, diffDouble, ys) ==
      Ok(if allInts && AllInts(ys) then Int(diffInt - IntSum(ys))
         else Double((if allInts then diffInt as real else diffDouble) - RealSum(ys))))
    decreases |ys|
  {
    if ys != [] {
      SumsUncons(ys);
      if IsNumber(ys[0]) {
        if ys[0].Double? && allInts {
          MinusLoopMeans(false, diffInt, diffInt as real - ys[0].d, ys[1..]);
        } else if allInts {
          MinusLoopMeans(true, diffInt - ys[0].i, diffDouble, ys[1..]);
          if AllNumbers(ys) && !AllInts(ys[1..]) {
            IntSumIsRealSum([ys[0]]);
          }
        } else {
          MinusLoopMeans(false, diffInt, diffDouble - Num(ys[0]), ys[1..]);
        }
      }
    }
  }

  /**
   * How primitiveMinus starts its loop. With two or more arguments a leading
   * double is the starting value and the loop starts at the second argument.
   */
  lemma MinusStartsDouble(xs: seq<Value>)
    requires |xs| > 1 && xs[0].Double?
    ensures Minus(xs) == MinusLoop(false, 0, xs[0].d, xs[1..])
  {
    SumsUncons(xs);
    MinusLoopMeans(false, 0, xs[0].d, xs[1..]);
  }

  /** With two or more arguments a leading int is the starting value. */
  lemma MinusStartsInt(xs: seq<Value>)
    requires |xs| > 1 && xs[0].Int?
    ensures Minus(xs) == MinusLoop(true, xs[0].i, 0.0, xs[1..])
  {
    SumsUncons(xs);
    MinusLoopMeans(true, xs[0].i, 0.0, xs[1..]);
  }

  /** With one argument, or a leading non-number, the loop starts from 0 at the first argument. */
  lemma MinusStartsZero(xs: seq<Value>)
    requires xs != [] && (|xs| == 1 || !IsNumber(xs[0]))
    ensures Minus(xs) == MinusLoop(true, 0, 0.0, xs)
  {
    if IsNumber(xs[0]) {
      assert xs[1..] == [];
      assert AllNumbers(xs);
    }
  }

  /** primitiveMinus: the start, then the loop over the argument list. */
  method PrimitiveMinus(args: Value) returns (r: Result<Value>)
    requires IsList(args)
    ensures r == Minus(Elems(args))
  {
    ghost var xs := Elems(args);
    if args.Null? {
      return Fail(MinusNoArgs);
    }
    ElemsFrom(args, xs, 0);
    if !args.cdr.Null? && args.car.Double? {
      MinusStartsDouble(xs);
      r := SubtractEach(args.cdr, false, 0, args.car.d);
    } else if !args.cdr.Null? && args.car.Int? {
      MinusStartsInt(xs);
      r := SubtractEach(args.cdr, true, args.car.i, 0.0);
    } else {
      assert args.cdr.Null? ==> |xs| == 1;
      MinusStartsZero(xs);
      r := SubtractEach(args, true, 0, 0.0);
    }
  }

  /**
   * primitiveMinus's loop: subtracts each remaining argument from the
   * running difference, an int until the first double.
   */
  method SubtractEach(list: Value, allInts0: bool, diffInt0: int, diffDouble0: real) returns (r: Result<Value>)
    requires IsList(list)
    ensures r == MinusLoop(allInts0, diffInt0, diffDouble0, Elems(list))
  {
    var allInts, diffInt, diffDouble, current := allInts0, diffInt0, diffDouble0, list;
    while !current.Null?
      invariant IsList(current)
      invariant MinusLoop(allInts0, diffInt0, diffDouble0, Elems(list)) == MinusLoop(allInts, diffInt, diffDouble, Elems(current))
      decreases |Elems(current)|
    {
      ghost var ys := Elems(current);
      assert ys == [current.car] + Elems(current.cdr);
      assert ys[0] == current.car && ys[1..] == Elems(current.cdr);
      var v := current.car;
      if !IsNumber(v) {
        return Fail(MinusNonNumber);
      } else if v.Double? && allInts {
        diffDouble := diffInt as real - v.d;
        allInts := false;
      } else if allInts {
        diffInt := diffInt - v.i;
      } else if v.Int? {
        diffDouble := diffDouble - v.i as real;
      } else {
        diffDouble := diffDouble - v.d;
      }
      current := current.cdr;
    }
    if allInts {
      return Ok(Int(diffInt));
    } else {
      return Ok(Double(diffDouble));
    }
  }

  // ---------------------------------------------------------------------
  // < and >

  /** The comparison < or > between two numbers. */
  predicate InOrder(less: bool, a: Value, b: Value)
    requires IsNumber(a) && IsNumber(b)
  {
    if less then Num(a) < Num(b) else Num(a) > Num(b)
  }

  function CompareError(less: bool): Error {
    if less then LessNonNumber else GreaterNonNumber
  }

  /**
   * The loop of primitiveLessThan and primitiveGreatorThan from a number at
   * the front: check the next argument is a number, answer #f at the first
   * pair out of order (the arguments after it are not looked at), #t at the
   * end.
   */
  function CompareChain(less: bool, xs: seq<Value>): (r: Result<Value>)
    requires xs != [] && IsNumber(xs[0])
    ensures r.Ok? ==> r.value.Bool?
    decreases |xs|
  {
    if |xs| == 1 then Ok(Bool(true))
    else if !IsNumber(xs[1]) then Fail(CompareError(less))
    else if !InOrder(less, xs[0], xs[1]) then Ok(Bool(false))
    else CompareChain(less, xs[1..])
  }

  /** < (less) or > (not less): #t for no arguments; the first argument must be a number. */
  function Compare(less: bool, xs: seq<Value>): (r: Result<Value>)
    ensures r.Ok? ==> r.value.Bool?
  {
    if xs == [] then Ok(Bool(true))
    else if !IsNumber(xs[0]) then Fail(CompareError(less))
    else CompareChain(less, xs)
  }

  /** Every adjacent pair of a sequence of numbers is in order. */
  predicate Ordered(less: bool, xs: seq<Value>)
    requires AllNumbers(xs)
  {
    forall i | 0 <= i < |xs| - 1 :: InOrder(less, xs[i], xs[i + 1])
  }

  /** On numbers, the comparison answers whether the numbers are strictly increasing (decreasing). */
  lemma {:induction false} CompareNumbers(less: bool, xs: seq<Value>)
    requires AllNumbers(xs)
    ensures Compare(less, xs) == Ok(Bool(Ordered(less, xs)))
    decreases |xs|
  {
    if |xs| > 1 {
      CompareNumbers(less, xs[1..]);
      if InOrder(less, xs[0], xs[1]) && Ordered(less, xs[1..]) {
        forall i | 0 <= i < |xs| - 1 ensures InOrder(less, xs[i], xs[i + 1]) {
          if i > 0 {
            assert xs[i] == xs[1..][i - 1] && xs[i + 1] == xs[1..][i];
          }
        }
      }
      if Ordered(less, xs) {
        forall i | 0 <= i < |xs[1..]| - 1 ensures InOrder(less, xs[1..][i], xs[1..][i + 1]) {
          assert xs[1..][i] == xs[i + 1] && xs[1..][i + 1] == xs[i + 2];
        }
      }
    }
  }

  /** The comparison fails only when some argument is not a number. */
  lemma {:induction false} CompareFails(less: bool, xs: seq<Value>)
    requires Compare(less, xs).Fail?
    ensures !AllNumbers(xs) && Compare(less, xs).error == CompareError(less)
    decreases |xs|
  {
    if xs != [] && IsNumber(xs[0]) && |xs| > 1 && IsNumber(xs[1]) {
      CompareFails(less, xs[1..]);
      var j :| 0 <= j < |xs[1..]| && !IsNumber(xs[1..][j]);
      assert xs[1..][j] == xs[j + 1];
    }
  }

  /**
   * A pair out of order answers #f even when a later argument is not a
   * number: the later arguments are never looked at.
   */
  lemma {:induction false} CompareStopsEarly(less: bool, xs: seq<Value>, j: nat)
    requires j + 1 < |xs| && forall i | 0 <= i <= j + 1 :: IsNumber(xs[i])
    requires forall i | 0 <= i < j :: InOrder(less, xs[i], xs[i + 1])
    requires !InOrder(less, xs[j], xs[j + 1])
    ensures Compare(less, xs) == Ok(Bool(false))
    decreases j
  {
    if j > 0 {
      var ys := xs[1..];
      forall i | 0 <= i <= j ensures IsNumber(ys[i]) {
        assert ys[i] == xs[i + 1];
      }
      forall i | 0 <= i < j - 1 ensures InOrder(less, ys[i], ys[i + 1]) {
        assert ys[i] == xs[i + 1] && ys[i + 1] == xs[i + 2];
      }
      CompareStopsEarly(less, ys, j - 1);
      assert InOrder(less, xs[0], xs[1]);
    }
  }

  /** The comparison loop over the argument list, proved equal to the comparison. */
  method PrimitiveCompare(less: bool, args: Value) returns (r: Result<Value>)
    requires IsList(args)
    ensures r == Compare(less, Elems(args))
  {
    ghost var xs := Elems(args);
    if args.Null? {
      return Ok(Bool(true));
    }
    ElemsFrom(args, xs, 0);
    var current := args;
    if !IsNumber(current.car) {
      return Fail(CompareError(less));
    }
    ghost var k := 0;
    while !current.cdr.Null?
      invariant IsList(current) && current.Cons? && k < |xs| && Elems(current) == xs[k..]
      invariant current.car == xs[k] && IsNumber(xs[k])
      invariant Compare(less, xs) == CompareChain(less, xs[k..])
      decreases |xs| - k
    {
      ElemsFrom(current, xs, k);
      ElemsFrom(current.cdr, xs, k + 1);
      assert xs[k..][1] == xs[k + 1] && xs[k..][1..] == xs[k + 1..];
      var next := current.cdr.car;
      if !IsNumber(next) {
        return Fail(CompareError(less));
      }
      if !InOrder(less, current.car, next) {
        return Ok(Bool(false));
      }
      current := current.cdr;
      k := k + 1;
    }
    ElemsFrom(current, xs, k);
    return Ok(Bool(true));
  }

  // ---------------------------------------------------------------------
  // =

  /** The loop of primitiveEqual after the first argument was found to be a number. */
  function EqualFrom(first: real, xs: seq<Value>): (r: Result<Value>)
    ensures r.Ok? ==> r.value.Bool?
    decreases |xs|
  {
    if xs == [] then Ok(Bool(true))
    else if !IsNumber(xs[0]) then Fail(EqualNonNumber)
    else if Num(xs[0]) != first then Ok(Bool(false))
    else EqualFrom(first, xs[1..])
  }

  /**
   * primitiveEqual: every argument, the first included, is checked to be a
   * number and compared with the first; #f at the first that differs, #t
   * at the end (and for no arguments).
   */
  function Equal(xs: seq<Value>): (r: Result<Value>)
    ensures r.Ok? ==> r.value.Bool?
  {
    if xs == [] then Ok(Bool(true))
    else if !IsNumber(xs[0]) then Fail(EqualNonNumber)
    else EqualFrom(Num(xs[0]), xs[1..])
  }

  /** On numbers, = answers whether all the arguments are equal in value. */
  lemma {:induction false} EqualFromNumbers(first: real, xs: seq<Value>)
    requires AllNumbers(xs)
    ensures EqualFrom(first, xs) == Ok(Bool(forall i | 0 <= i < |xs| :: Num(xs[i]) == first))
    decreases |xs|
  {
    if xs != [] {
      assert AllNumbers(xs[1..]) by {
        forall i | 0 <= i < |xs[1..]| ensures IsNumber(xs[1..][i]) {
          assert xs[1..][i] == xs[i + 1];
        }
      }
      EqualFromNumbers(first, xs[1..]);
      if Num(xs[0]) == first && forall i | 0 <= i < |xs[1..]| :: Num(xs[1..][i]) == first {
        forall i | 0 <= i < |xs| ensures Num(xs[i]) == first {
          if i > 0 {
            assert xs[i] == xs[1..][i - 1];
          }
        }
      }
    }
  }

  lemma EqualNumbers(xs: seq<Value>)
    requires AllNumbers(xs)
    ensures Equal(xs) == Ok(Bool(forall i, j | 0 <= i < |xs| && 0 <= j < |xs| :: Num(xs[i]) == Num(xs[j])))
  {
    if xs != [] {
      assert AllNumbers(xs[1..]) by {
        forall i | 0 <= i < |xs[1..]| ensures IsNumber(xs[1..][i]) {
          assert xs[1..][i] == xs[i + 1];
        }
      }
      EqualFromNumbers(Num(xs[0]), xs[1..]);
      if forall i | 0 <= i < |xs[1..]| :: Num(xs[1..][i]) == Num(xs[0]) {
        forall i | 0 <= i < |xs| ensures Num(xs[i]) == Num(xs[0]) {
          if i > 0 {
            assert xs[i] == xs[1..][i - 1];
          }
        }
      } else {
        var i :| 0 <= i < |xs[1..]| && Num(xs[1..][i]) != Num(xs[0]);
        assert xs[1..][i] == xs[i + 1];
      }
    }
  }

  /** = fails only when some argument is not a number. */
  lemma {:induction false} EqualFromFails(first: real, xs: seq<Value>)
    requires EqualFrom(first, xs).Fail?
    ensures !AllNumbers(xs) && EqualFrom(first, xs).error == EqualNonNumber
    decreases |xs|
  {
    if xs != [] && IsNumber(xs[0]) {
      EqualFromFails(first, xs[1..]);
      var j :| 0 <= j < |xs[1..]| && !IsNumber(xs[1..][j]);
      assert xs[1..][j] == xs[j + 1];
    }
  }

  lemma EqualFails(xs: seq<Value>)
    requires Equal(xs).Fail?
    ensures !AllNumbers(xs) && Equal(xs).error == EqualNonNumber
  {
    if xs != [] && IsNumber(xs[0]) {
      EqualFromFails(Num(xs[0]), xs[1..]);
      var j :| 0 <= j < |xs[1..]| && !IsNumber(xs[1..][j]);
      assert xs[1..][j] == xs[j + 1];
    }
  }

  /** primitiveEqual's loop over the argument list, proved equal to =. */
  method PrimitiveEqual(args: Value) returns (r: Result<Value>)
    requires IsList(args)
    ensures r == Equal(Elems(args))
  {
    ghost var xs := Elems(args);
    ghost var k := 0;
    var current := args;
    while !current.Null?
      invariant IsList(current) && 0 <= k <= |xs| && Elems(current) == xs[k..]
      invariant k > 0 ==> IsNumber(xs[0]) && args.car == xs[0] && Equal(xs) == EqualFrom(Num(xs[0]), xs[k..])
      invariant k == 0 ==> current == args
      decreases |xs| - k
    {
      ElemsFrom(current, xs, k);
      var v := current.car;
      if !IsNumber(v) {
        return Fail(EqualNonNumber);
      }
      if k == 0 {
        ElemsFrom(args, xs, 0);
      } else {
        assert xs[k..][1..] == xs[k + 1..];
      }
      if Num(v) != Num(args.car) {
        return Ok(Bool(false));
      }
      current := current.cdr;
      k := k + 1;
    }
    return Ok(Bool(true));
  }

  // ---------------------------------------------------------------------
  // null?, car, cdr, cons

  /** primitiveNull: exactly one argument; #t exactly when it is the empty list. */
  function NullP(args: Value): (r: Result<Value>)
    requires IsList(args)
    ensures r.Ok? <==> |Elems(args)| == 1
    ensures r.Fail? ==> r.error == NullArity
    ensures r.Ok? ==> r == Ok(Bool(Elems(args)[0] == Null))
  {
    if args.Null? || !args.cdr.Null? then Fail(NullArity)
    else Ok(Bool(args.car.Null?))
  }

  /** primitiveCar: exactly one argument, which must be a pair; its first half. */
  function Car(args: Value): (r: Result<Value>)
    requires IsList(args)
    ensures r.Ok? <==> |Elems(args)| == 1 && Elems(args)[0].Cons?
    ensures r.Fail? ==> r.error == (if |Elems(args)| != 1 then CarArity else CarNotPair)
    ensures r.Ok? ==> r.value == Elems(args)[0].car
  {
    if args.Null? || !args.cdr.Null? then Fail(CarArity)
    else if !args.car.Cons? then Fail(CarNotPair)
    else Ok(args.car.car)
  }

  /** primitiveCdr: exactly one argument, which must be a pair; its second half. */
  function Cdr(args: Value): (r: Result<Value>)
    requires IsList(args)
    ensures r.Ok? <==> |Elems(args)| == 1 && Elems(args)[0].Cons?
    ensures r.Fail? ==> r.error == (if |Elems(args)| != 1 then CdrArity else CdrNotPair)
    ensures r.Ok? ==> r.value == Elems(args)[0].cdr
  {
    if args.Null? || !args.cdr.Null? then Fail(CdrArity)
    else if !args.car.Cons? then Fail(CdrNotPair)
    else Ok(args.car.cdr)
  }

  /** primitiveCons: exactly two arguments, paired. */
  function ConsP(args: Value): (r: Result<Value>)
    requires IsList(args)
    ensures r.Ok? <==> |Elems(args)| == 2
    ensures r.Fail? ==> r.error == ConsArity
    ensures r.Ok? ==> r.value == Cons(Elems(args)[0], Elems(args)[1])
  {
    if args.Null? || args.cdr.Null? then Fail(ConsArity)
    else
      assert Elems(args) == [args.car] + Elems(args.cdr);
      assert IsList(args.cdr) && Elems(args.cdr) == [args.cdr.car] + Elems(args.cdr.cdr);
      if !args.cdr.cdr.Null? then Fail(ConsArity)
      else Ok(Cons(args.car, args.cdr.car))
  }

  /** car and cdr take apart what cons builds, and cons rebuilds any pair from its car and cdr. */
  lemma CarCdrCons(a: Value, b: Value, p: Value)
    requires p.Cons?
    ensures ConsP(FromSeq([a, b])) == Ok(Cons(a, b))
    ensures Car(FromSeq([Cons(a, b)])) == Ok(a) && Cdr(FromSeq([Cons(a, b)])) == Ok(b)
    ensures ConsP(FromSeq([Car(FromSeq([p])).value, Cdr(FromSeq([p])).value])) == Ok(p)
  {
    assert FromSeq([a, b]) == Cons(a, Cons(b, Null));
    assert FromSeq([Cons(a, b)]) == Cons(Cons(a, b), Null);
    assert FromSeq([p]) == Cons(p, Null);
    assert FromSeq([p.car, p.cdr]) == Cons(p.car, Cons(p.cdr, Null));
  }

  // ---------------------------------------------------------------------
  // apply, for a primitive

  /** What apply does with a primitive: call it on the evaluated argument list. */
  function ApplyPrimitive(op: PrimOp, args: Value): (r: Result<Value>)
    requires IsList(args)
  {
    match op
    case PlusOp => Plus(Elems(args))
    case MinusOp => Minus(Elems(args))
    case EqualOp => Equal(Elems(args))
    case LessOp => Compare(true, Elems(args))
    case GreaterOp => Compare(false, Elems(args))
    case NullOp => NullP(args)
    case CarOp => Car(args)
    case CdrOp => Cdr(args)
    case ConsOp => ConsP(args)
  }

  /** A primitive returns a usable value when its arguments are usable. */
  lemma ApplyPrimitiveOk(stage: Stage, op: PrimOp, args: Value, n: nat)
    requires IsList(args) && ValueOk(stage, args, n) && ApplyPrimitive(op, args).Ok?
    ensures ValueOk(stage, ApplyPrimitive(op, args).value, n)
  {
    ElemsOfOk(stage, args, n);
    var xs := Elems(args);
    match op
    case CarOp =>
      assert ValueOk(stage, xs[0], n);
    case CdrOp =>
      assert ValueOk(stage, xs[0], n);
    case ConsOp =>
      assert ValueOk(stage, xs[0], n) && ValueOk(stage, xs[1], n);
    case _ =>
  }

  // ---------------------------------------------------------------------
  // Binding primitives in the global frame

  /**
   * bind: a primitive's binding goes on the front of a frame's list, with
   * no check for an earlier binding of the name.
   */
  function Bind(st: Store, g: nat, name: string, op: PrimOp): (r: Store)
    requires g < |st|
    ensures |r| == |st| && r[g].parent == st[g].parent
    ensures forall h | 0 <= h < |st| && h != g :: r[h] == st[h]
  {
    st[g := Frame([Binding(name, Primitive(op))] + st[g].bindings, st[g].parent)]
  }

  /** The name just bound is found first in its frame, so it refers to the primitive. */
  lemma BindThenLookUp(st: Store, g: nat, name: string, op: PrimOp)
    requires Chained(st) && g < |st|
    ensures Chained(Bind(st, g, name, op))
    ensures LookUp(Bind(st, g, name, op), g, name) == Ok(Primitive(op))
  {
    var st' := Bind(st, g, name, op);
    assert Chained(st') by {
      forall h | 0 <= h < |st'| ensures st'[h].parent == st[h].parent { }
    }
    LookUpInnermost(st', g, name, 0);
  }

  /**
   * Skipping the reversal for car and cdr changes nothing: both take one
   * argument, and a list of one element is its own reverse.
   */
  lemma CarCdrReversalHarmless(op: PrimOp, args: Value)
    requires op == CarOp || op == CdrOp
    requires IsList(args)
    ensures ApplyPrimitive(op, ReverseList(args)) == ApplyPrimitive(op, args)
  {
    var xs := Elems(args);
    if |xs| == 1 {
      assert xs[1..] == [];
      assert Reversed(xs) == xs;
    }
  }
}
