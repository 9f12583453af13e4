// The first cons-list library (linkedlist-main/linkedlist.c): constructors,
// accessors, a counting loop for length, and a recursive reverse whose
// helper copies the atoms it meets.

module LinkedList {
  import opened Values

  /** The value types of this stage: Integer, Double, String, Null and Cons. */
  predicate InStage(v: Value) {
    match v
    case Int(_) => true
    case Double(_) => true
    case Str(_) => true
    case Null => true
    case Cons(a, d) => InStage(a) && InStage(d)
    case _ => false
  }

  /** An element that reverseHelper copies: a non-list value of this stage. */
  predicate IsAtom(v: Value) {
    v.Int? || v.Double? || v.Str?
  }

  function MakeNull(): (r: Value)
    ensures IsList(r) && Elems(r) == []
  {
    Null
  }

  function MakeCons(first: Value, rest: Value): (r: Value)
    ensures r.Cons? && Car(r) == first && Cdr(r) == rest
    ensures IsList(rest) ==> IsList(r) && Elems(r) == [first] + Elems(rest)
  {
    Cons(first, rest)
  }

  /** The car slot; the source asserts that the argument is a cons cell. */
  function Car(list: Value): Value
    requires list.Cons?
  {
    list.car
  }

  /** The cdr slot; the source asserts that the argument is a cons cell. */
  function Cdr(list: Value): Value
    requires list.Cons?
  {
    list.cdr
  }

  /** A cons cell is rebuilt exactly from its two slots. */
  lemma ConsOfCarCdr(list: Value)
    requires list.Cons?
    ensures MakeCons(Car(list), Cdr(list)) == list
  {
  }

  function IsNull(v: Value): (r: bool)
    ensures r <==> (IsList(v) && Elems(v) == [])
  {
    v.Null?
  }

  /**
   * Counts the cells of a proper list by walking the cdr chain. The walk
   * takes the cdr of every non-empty tail, which the source asserts is a
   * cons cell, so an improper list is outside its domain.
   */
  method Length(v: Value) returns (count: int)
    requires !v.Cons? || IsList(v)
    ensures v.Null? ==> count == 0
    ensures v.Cons? ==> count == |Elems(v)|
    ensures !v.Null? && !v.Cons? ==> count == 1
  {
    if v.Null? {
      return 0;
    } else if v.Cons? {
      count := 1;
      var current := v;
      var next := Cdr(v);
      while !next.Null?
        invariant current.Cons? && next == current.cdr && IsList(next)
        invariant count + |Elems(next)| == |Elems(v)|
        decreases next
      {
        current := next;
        next := Cdr(next);
        count := count + 1;
      }
      return count;
    } else {
      return 1;
    }
  }

  /**
   * reverseHelper as written: an atom is returned (as a copy), the empty
   * list returns the accumulator, and a cons cell conses reverseHelper of
   * its car onto the accumulator before going on with its cdr; a non-list
   * cdr is consed in front of the result.
   */
  function ReverseHelper(list: Value, reversed: Value): (r: Value)
    requires InStage(list)
    ensures IsAtom(list) ==> r == list
    ensures list.Cons? ==> r.Cons?
  {
    match list
    case Null => reversed
    case Cons(first, rest) =>
      var reversed' := MakeCons(ReverseHelper(first, reversed), reversed);
      if rest.Null? || rest.Cons? then ReverseHelper(rest, reversed')
      else MakeCons(ReverseHelper(rest, reversed'), reversed')
    case _ => list
  }

  function Reverse(list: Value): (r: Value)
    requires InStage(list)
    ensures list.Cons? ==> r.Cons?
  {
    ReverseHelper(list, MakeNull())
  }

  /** A proper list whose elements are all atoms. */
  predicate IsFlat(v: Value) {
    IsList(v) && forall x | x in Elems(v) :: IsAtom(x)
  }

  /** On a flat list reverseHelper is element-wise reversal onto the accumulator. */
  lemma {:induction false} ReverseHelperFlat(list: Value, reversed: Value)
    requires IsFlat(list) && InStage(list) && IsList(reversed)
    ensures ReverseHelper(list, reversed) == ReverseOnto(list, reversed)
  {
    if list.Cons? {
      assert Elems(list) == [list.car] + Elems(list.cdr);
      assert IsAtom(list.car);
      ReverseHelperFlat(list.cdr, Cons(list.car, reversed));
    }
  }

  /**
   * On a proper list of Integer, Double and String atoms, reverse gives a
   * list of the same length holding the same atoms in reverse order.
   */
  lemma ReverseFlat(list: Value)
    requires IsFlat(list) && InStage(list)
    ensures IsList(Reverse(list)) && Elems(Reverse(list)) == Reversed(Elems(list))
    ensures |Elems(Reverse(list))| == |Elems(list)|
  {
    ReverseHelperFlat(list, Null);
  }

  /** The cars along the cdr chain of v, and the value that ends the chain. */
  function Spine(v: Value): seq<Value> {
    if v.Cons? then [v.car] + Spine(v.cdr) else []
  }

  function Tail(v: Value): Value {
    if v.Cons? then Tail(v.cdr) else v
  }

  /** Atoms all the way along the chain, and an atom (not the empty list) at its end. */
  predicate IsDotted(v: Value) {
    v.Cons? && (forall x | x in Spine(v) :: IsAtom(x)) && IsAtom(Tail(v))
  }

  lemma {:induction false} ReverseHelperDotted(list: Value, reversed: Value)
    requires IsDotted(list) && InStage(list) && IsList(reversed)
    ensures ReverseHelper(list, reversed) == Cons(Tail(list), ReverseOnto(FromSeq(Spine(list)), reversed))
  {
    assert Spine(list) == [list.car] + Spine(list.cdr);
    assert IsAtom(list.car);
    var reversed' := Cons(list.car, reversed);
    if list.cdr.Cons? {
      ReverseHelperDotted(list.cdr, reversed');
    } else {
      assert Spine(list.cdr) == [];
    }
  }

  /**
   * An improper list's atom tail becomes the first element of a proper
   * result, followed by the other atoms in reverse: (a b . c) gives (c b a).
   */
  lemma ReverseDotted(list: Value)
    requires IsDotted(list) && InStage(list)
    ensures IsList(Reverse(list))
    ensures Elems(Reverse(list)) == [Tail(list)] + Reversed(Spine(list))
  {
    ReverseHelperDotted(list, Null);
  }

  /**
   * reverseHelper applies itself to each car, so an empty-list element is
   * replaced by the accumulator: reverse of (1 ()) is ((1) 1) where a
   * reversal gives (() 1).
   */
  lemma ReverseMisplacesEmptyElement()
    ensures var list := Cons(Int(1), Cons(Null, Null));
      Reverse(list) == Cons(Cons(Int(1), Null), Cons(Int(1), Null)) &&
      ReverseList(list) == Cons(Null, Cons(Int(1), Null)) &&
      Reverse(list) != ReverseList(list)
  {
  }
}
