// Frames and bindings, shared by every interpreter stage (makeFrame,
// addBinding and lookUpSymbol are the same code in each interpreter.c).
//
// A Frame* is an index into a store of frames. Frames are only ever added
// to the store, so an index stays valid, and a frame's parent always has a
// smaller index than the frame itself. A frame's bindings list is a
// sequence of (name, value) pairs, front first, exactly as the C list is
// walked. A binding cell is named by its frame and its symbol: a frame
// never holds two bindings with the same name (addBinding refuses them), so
// the first binding with a given name is the cell lookUpSymbol returns.

module Environments {
  import opened Values

  datatype Binding = Binding(name: string, value: Value)

  datatype Frame = Frame(bindings: seq<Binding>, parent: Option<nat>)

  type Store = seq<Frame>

  /** Every frame's parent was made before it, so every parent chain ends at a root. */
  predicate Chained(st: Store) {
    forall i | 0 <= i < |st| :: st[i].parent.Some? ==> st[i].parent.value < i
  }

  predicate BoundIn(bs: seq<Binding>, name: string) {
    exists i | 0 <= i < |bs| :: bs[i].name == name
  }

  /** The position of the first binding of a name in a bindings list. */
  function FirstIndex(bs: seq<Binding>, name: string): (i: nat)
    requires BoundIn(bs, name)
    ensures i < |bs| && bs[i].name == name
    ensures forall j | 0 <= j < i :: bs[j].name != name
  {
    if bs[0].name == name then 0
    else
      assert exists i | 1 <= i < |bs| :: bs[i].name == name;
      assert BoundIn(bs[1..], name) by {
        var k :| 1 <= k < |bs| && bs[k].name == name;
        assert bs[1..][k - 1].name == name;
      }
      1 + FirstIndex(bs[1..], name)
  }

  // ---------------------------------------------------------------------
  // makeFrame

  /** makeFrame: a new frame, with no bindings, under the given parent. */
  function MakeFrame(st: Store, parent: Option<nat>): (r: (Store, nat))
    ensures r.1 == |st| && |r.0| == |st| + 1
    ensures r.0[..|st|] == st && r.0[r.1] == Frame([], parent)
  {
    (st + [Frame([], parent)], |st|)
  }

  /** A new frame under an existing parent keeps the store chained. */
  lemma MakeFrameChained(st: Store, parent: Option<nat>)
    requires Chained(st) && (parent.Some? ==> parent.value < |st|)
    ensures Chained(MakeFrame(st, parent).0)
  {
  }

  // ---------------------------------------------------------------------
  // addBinding

  /**
   * addBinding's outcome: a name already bound in that same frame is an
   * error, then a name that is not a symbol is an error; otherwise the
   * binding goes on the front of that frame's list and nothing else in the
   * store changes. (The source compares the new name's string with each
   * bound name before it checks the new name's type; a name that is not a
   * symbol matches no bound name here.)
   */
  function WithBinding(st: Store, f: nat, name: Value, v: Value): (r: Result<Store>)
    requires f < |st|
    ensures r.Fail? <==> !name.Symbol? || BoundIn(st[f].bindings, name.name)
    ensures r.Fail? && name.Symbol? ==> r.error == AlreadyBound(name.name)
    ensures r.Fail? && !name.Symbol? ==> r.error == BindNonSymbol
    ensures r.Ok? ==> |r.value| == |st|
    ensures r.Ok? ==> r.value[f] == Frame([Binding(name.name, v)] + st[f].bindings, st[f].parent)
    ensures r.Ok? ==> forall g | 0 <= g < |st| && g != f :: r.value[g] == st[g]
  {
    if name.Symbol? && BoundIn(st[f].bindings, name.name) then Fail(AlreadyBound(name.name))
    else if !name.Symbol? then Fail(BindNonSymbol)
    else Ok(st[f := Frame([Binding(name.name, v)] + st[f].bindings, st[f].parent)])
  }

  /** addBinding: scans the frame's bindings for the name, then prepends. */
  method AddBinding(st: Store, f: nat, name: Value, v: Value) returns (r: Result<Store>)
    requires f < |st|
    ensures r == WithBinding(st, f, name, v)
  {
    var bs := st[f].bindings;
    var i := 0;
    while i < |bs|
      invariant 0 <= i <= |bs|
      invariant name.Symbol? ==> forall j | 0 <= j < i :: bs[j].name != name.name
    {
      if name.Symbol? && bs[i].name == name.name {
        return Fail(AlreadyBound(name.name));
      }
      i := i + 1;
    }
    if !name.Symbol? {
      return Fail(BindNonSymbol);
    }
    return Ok(st[f := Frame([Binding(name.name, v)] + bs, st[f].parent)]);
  }

  // ---------------------------------------------------------------------
  // lookUpSymbol

  /**
   * The frame holding the binding a symbol refers to from frame f: f itself
   * if it binds the name, otherwise the nearest ancestor that does; past the
   * root the symbol is unbound.
   */
  function Find(st: Store, f: nat, name: string): (r: Result<nat>)
    requires Chained(st) && f < |st|
    ensures r.Ok? ==> r.value <= f && BoundIn(st[r.value].bindings, name)
    ensures r.Fail? ==> r.error == Unbound(name)
    decreases f
  {
    if BoundIn(st[f].bindings, name) then Ok(f)
    else match st[f].parent
      case None => Fail(Unbound(name))
      case Some(p) => Find(st, p, name)
  }

  /** The value a symbol evaluates to from frame f: that of the binding Find selects. */
  function LookUp(st: Store, f: nat, name: string): (r: Result<Value>)
    requires Chained(st) && f < |st|
  {
    var g :- Find(st, f, name);
    Ok(st[g].bindings[FirstIndex(st[g].bindings, name)].value)
  }

  /**
   * lookUpSymbol, returning the frame of the binding cell: walks the
   * frame's bindings front to back, then recurses into the parent.
   */
  method LookUpSymbol(st: Store, f: nat, name: string) returns (r: Result<nat>)
    requires Chained(st) && f < |st|
    ensures r == Find(st, f, name)
    decreases f
  {
    var bs := st[f].bindings;
    var i := 0;
    while i < |bs|
      invariant 0 <= i <= |bs|
      invariant forall j | 0 <= j < i :: bs[j].name != name
    {
      if bs[i].name == name {
        return Ok(f);
      }
      i := i + 1;
    }
    if st[f].parent.None? {
      return Fail(Unbound(name));
    }
    r := LookUpSymbol(st, st[f].parent.value, name);
  }

  /** A binding in the frame itself wins over every ancestor's: the first one in the list. */
  lemma LookUpInnermost(st: Store, f: nat, name: string, i: nat)
    requires Chained(st) && f < |st|
    requires i < |st[f].bindings| && st[f].bindings[i].name == name
    requires forall j | 0 <= j < i :: st[f].bindings[j].name != name
    ensures LookUp(st, f, name) == Ok(st[f].bindings[i].value)
  {
    var k := FirstIndex(st[f].bindings, name);
  }

  /** Without a binding in the frame itself the lookup is the parent's, or fails at the root. */
  lemma LookUpOuter(st: Store, f: nat, name: string)
    requires Chained(st) && f < |st| && !BoundIn(st[f].bindings, name)
    ensures st[f].parent.None? ==> LookUp(st, f, name) == Fail(Unbound(name))
    ensures st[f].parent.Some? ==> LookUp(st, f, name) == LookUp(st, st[f].parent.value, name)
  {
  }

  // ---------------------------------------------------------------------
  // Effects of changing the store on lookups

  /** The first n frames of two stores have the same parents and bind the name alike. */
  predicate SameShape(st: Store, st': Store, n: nat, name: string) {
    n <= |st| && n <= |st'| &&
    forall g | 0 <= g < n ::
      st'[g].parent == st[g].parent &&
      (BoundIn(st'[g].bindings, name) <==> BoundIn(st[g].bindings, name))
  }

  /** Find reads only the names and the parents of the frames on the chain. */
  lemma {:induction false} FindSameShape(st: Store, st': Store, f: nat, name: string)
    requires Chained(st) && Chained(st') && f < |st| && SameShape(st, st', f + 1, name)
    ensures Find(st', f, name) == Find(st, f, name)
    decreases f
  {
    if !BoundIn(st[f].bindings, name) && st[f].parent.Some? {
      FindSameShape(st, st', st[f].parent.value, name);
    }
  }

  /** Adding frames leaves every lookup from an existing frame as it was. */
  lemma LookUpExtended(st: Store, st': Store, f: nat, name: string)
    requires Chained(st) && Chained(st') && f < |st| <= |st'| && st'[..|st|] == st
    ensures LookUp(st', f, name) == LookUp(st, f, name)
  {
    assert forall g | 0 <= g < |st| :: st'[g] == st[g] by {
      forall g | 0 <= g < |st| ensures st'[g] == st[g] {
        assert st'[..|st|][g] == st'[g];
      }
    }
    FindSameShape(st, st', f, name);
  }

  /** From a new frame, every symbol is looked up in the parent (the frame is empty). */
  lemma LookUpMakeFrame(st: Store, p: nat, name: string)
    requires Chained(st) && p < |st|
    ensures Chained(MakeFrame(st, Some(p)).0)
    ensures LookUp(MakeFrame(st, Some(p)).0, |st|, name) == LookUp(st, p, name)
  {
    var (st', c) := MakeFrame(st, Some(p));
    assert !BoundIn(st'[c].bindings, name);
    LookUpExtended(st, st', p, name);
  }

  /**
   * After addBinding succeeds, the new name evaluates to the new value in
   * that frame, and every other name evaluates as before from every frame.
   */
  lemma LookUpWithBinding(st: Store, f: nat, x: Value, v: Value, h: nat, y: string)
    requires Chained(st) && f < |st| && h < |st| && WithBinding(st, f, x, v).Ok?
    ensures Chained(WithBinding(st, f, x, v).value)
    ensures LookUp(WithBinding(st, f, x, v).value, f, x.name) == Ok(v)
    ensures y != x.name ==> LookUp(WithBinding(st, f, x, v).value, h, y) == LookUp(st, h, y)
  {
    var st' := WithBinding(st, f, x, v).value;
    assert Chained(st') by {
      forall g | 0 <= g < |st'| ensures st'[g].parent == st[g].parent { }
    }
    LookUpInnermost(st', f, x.name, 0);
    if y != x.name {
      forall g | 0 <= g < |st|
        ensures st'[g].parent == st[g].parent
        ensures BoundIn(st'[g].bindings, y) <==> BoundIn(st[g].bindings, y)
      {
        if g == f {
          var bs := st[f].bindings;
          assert st'[f].bindings == [Binding(x.name, v)] + bs;
          if BoundIn(bs, y) {
            var k :| 0 <= k < |bs| && bs[k].name == y;
            assert st'[f].bindings[k + 1].name == y;
          }
          if BoundIn(st'[f].bindings, y) {
            var k :| 0 <= k < |st'[f].bindings| && st'[f].bindings[k].name == y;
            assert k > 0 && bs[k - 1].name == y;
          }
        }
      }
      FindSameShape(st, st', h, y);
      var g := Find(st, h, y);
      if g.Ok? && g.value == f {
        var bs := st[f].bindings;
        var k := FirstIndex(bs, y);
        assert st'[f].bindings[k + 1] == bs[k];
        LookUpInnermostAt(st', f, y, k + 1);
      }
    }
  }

  /** LookUp from the frame Find selects reads that frame's first binding of the name. */
  lemma LookUpInnermostAt(st: Store, f: nat, name: string, i: nat)
    requires Chained(st) && f < |st|
    requires i < |st[f].bindings| && st[f].bindings[i].name == name
    requires forall j | 0 <= j < i :: st[f].bindings[j].name != name
    ensures FirstIndex(st[f].bindings, name) == i
  {
    var k := FirstIndex(st[f].bindings, name);
  }

  // ---------------------------------------------------------------------
  // set! and letrec: overwriting a binding cell

  /** The bindings list with the first binding of the name given a new value. */
  function Assigned(bs: seq<Binding>, name: string, v: Value): (r: seq<Binding>)
    requires BoundIn(bs, name)
    ensures |r| == |bs|
    ensures forall j | 0 <= j < |bs| :: r[j].name == bs[j].name
    ensures r[FirstIndex(bs, name)] == Binding(name, v)
    ensures forall j | 0 <= j < |bs| && j != FirstIndex(bs, name) :: r[j] == bs[j]
  {
    bs[FirstIndex(bs, name) := Binding(name, v)]
  }

  /**
   * Overwrites the value of the binding cell of a name in frame g (set!
   * writes the cell's cdr). No binding is added or removed.
   */
  function SetBinding(st: Store, g: nat, name: string, v: Value): (r: Store)
    requires g < |st| && BoundIn(st[g].bindings, name)
    ensures |r| == |st| && r[g].parent == st[g].parent
    ensures forall h | 0 <= h < |st| && h != g :: r[h] == st[h]
  {
    st[g := Frame(Assigned(st[g].bindings, name, v), st[g].parent)]
  }

  /** Overwriting a cell keeps every frame's names and parent. */
  lemma SetBindingShape(st: Store, g: nat, name: string, v: Value)
    requires g < |st| && BoundIn(st[g].bindings, name)
    ensures forall x :: SameShape(st, SetBinding(st, g, name, v), |st|, x)
    ensures Chained(st) ==> Chained(SetBinding(st, g, name, v))
  {
    var st' := SetBinding(st, g, name, v);
    forall h, x | 0 <= h < |st| ensures BoundIn(st'[h].bindings, x) <==> BoundIn(st[h].bindings, x) {
      if h == g {
        if BoundIn(st[h].bindings, x) {
          var k :| 0 <= k < |st[h].bindings| && st[h].bindings[k].name == x;
          assert st'[h].bindings[k].name == x;
        }
        if BoundIn(st'[h].bindings, x) {
          var k :| 0 <= k < |st'[h].bindings| && st'[h].bindings[k].name == x;
          assert st[h].bindings[k].name == x;
        }
      }
    }
  }

  /**
   * After set! through the cell a symbol refers to from frame f, the symbol
   * evaluates to the new value from f, and no other name changes its frame.
   */
  lemma LookUpAfterSet(st: Store, f: nat, name: string, v: Value)
    requires Chained(st) && f < |st| && Find(st, f, name).Ok?
    ensures Chained(SetBinding(st, Find(st, f, name).value, name, v))
    ensures LookUp(SetBinding(st, Find(st, f, name).value, name, v), f, name) == Ok(v)
  {
    var g := Find(st, f, name).value;
    var st' := SetBinding(st, g, name, v);
    SetBindingShape(st, g, name, v);
    FindSameShape(st, st', f, name);
    var k := FirstIndex(st[g].bindings, name);
    LookUpInnermostAt(st', g, name, k);
  }

  /** Overwriting one name's cell changes the value of no other name, from any frame. */
  lemma LookUpSetOther(st: Store, g: nat, name: string, v: Value, h: nat, y: string)
    requires Chained(st) && g < |st| && h < |st| && BoundIn(st[g].bindings, name) && y != name
    ensures Chained(SetBinding(st, g, name, v))
    ensures LookUp(SetBinding(st, g, name, v), h, y) == LookUp(st, h, y)
  {
    var st' := SetBinding(st, g, name, v);
    SetBindingShape(st, g, name, v);
    FindSameShape(st, st', h, y);
    var k := Find(st, h, y);
    if k.Ok? && k.value == g {
      var i := FirstIndex(st[g].bindings, y);
      assert st'[g].bindings[i] == st[g].bindings[i];
      LookUpInnermostAt(st', g, y, i);
    }
  }
}
