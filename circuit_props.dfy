/** What `buildCircuit` promises, proved about the specification `Build`
    (which `Circuit.BuildCircuit` is proved to compute). */
module CircuitProps {
  import opened PyStr
  import opened Circuit

  // ---------------------------------------------------------------------
  // Parsing
  // ---------------------------------------------------------------------

  /** `slot` is what the source reads from `token`: the type code is the
      first character, the arity one more than the number of `/`. */
  predicate Reads(token: string, slot: Slot)
  {
    token != [] && slot.kind == token[0] && slot.arity == Count(token, '/') + 1
  }

  lemma TokenSlot(token: string)
    requires token != []
    ensures Reads(token, ParseToken(token))
  {
    SplitCount(token, '/');
  }

  /** The parsed circuit has one shape per `-`-separated piece of the
      space-free string, in order; a piece holding `p` is a group with one
      slot per branch, any other piece a single slot, and every slot has the
      type code and arity its token spells. */
  lemma ParseSpec(circuit: string)
    requires WellFormed(circuit)
    ensures Join(Terms(circuit), '-') == Without(circuit, {' '})
    ensures |Parse(circuit)| == |Terms(circuit)|
    ensures forall i :: 0 <= i < |Terms(circuit)| ==>
      (Parse(circuit)[i].Group? <==> 'p' in Terms(circuit)[i])
    ensures forall i :: 0 <= i < |Terms(circuit)| && 'p' !in Terms(circuit)[i] ==>
      Reads(Terms(circuit)[i], Parse(circuit)[i].slot)
    ensures forall i :: 0 <= i < |Terms(circuit)| && 'p' in Terms(circuit)[i] ==>
      && |Parse(circuit)[i].slots| == |Branches(Terms(circuit)[i])|
      && forall j :: 0 <= j < |Branches(Terms(circuit)[i])| ==>
           Reads(Branches(Terms(circuit)[i])[j], Parse(circuit)[i].slots[j])
  {
    var ts := Terms(circuit);
    forall i | 0 <= i < |ts|
      ensures 'p' !in ts[i] ==> Reads(ts[i], Parse(circuit)[i].slot)
      ensures 'p' in ts[i] ==> forall j :: 0 <= j < |Branches(ts[i])| ==>
                Reads(Branches(ts[i])[j], Parse(circuit)[i].slots[j])
    {
      assert TermOk(ts[i]);
      if 'p' in ts[i] {
        forall j | 0 <= j < |Branches(ts[i])|
          ensures Reads(Branches(ts[i])[j], Parse(circuit)[i].slots[j])
        {
          TokenSlot(Branches(ts[i])[j]);
        }
      } else {
        TokenSlot(ts[i]);
      }
    }
  }

  // ---------------------------------------------------------------------
  // Binding, position by position
  // ---------------------------------------------------------------------

  /** Binding a list that starts with shape `x` binds `x` first. */
  lemma BindShapesCons<P, F>(x: Shape, rest: seq<Shape>, freqs: seq<F>, params: seq<P>)
    ensures BindShapes([x] + rest, freqs, params)
         == [BindShape(x, freqs, params)] + BindShapes(rest, freqs, Drop(params, ShapeArity(x)))
    ensures TotalArity([x] + rest) == ShapeArity(x) + TotalArity(rest)
  {
    assert ([x] + rest)[1..] == rest;
  }

  /** One step of `BindShapesAppend`: binding `[x] + a + b` peels off `x`. */
  lemma BindShapesAppendStep<P, F>(x: Shape, a: seq<Shape>, b: seq<Shape>, freqs: seq<F>, params: seq<P>)
    requires BindShapes(a + b, freqs, Drop(params, ShapeArity(x)))
          == BindShapes(a, freqs, Drop(params, ShapeArity(x)))
           + BindShapes(b, freqs, Drop(Drop(params, ShapeArity(x)), TotalArity(a)))
    ensures BindShapes([x] + a + b, freqs, params)
         == BindShapes([x] + a, freqs, params) + BindShapes(b, freqs, Drop(params, TotalArity([x] + a)))
  {
    var head := [BindShape(x, freqs, params)];
    var mid := BindShapes(a, freqs, Drop(params, ShapeArity(x)));
    var tail := BindShapes(b, freqs, Drop(Drop(params, ShapeArity(x)), TotalArity(a)));
    ConcatAssoc([x], a, b);
    BindShapesCons(x, a + b, freqs, params);
    BindShapesCons(x, a, freqs, params);
    DropDrop(params, ShapeArity(x), TotalArity(a));
    ConcatAssoc(head, mid, tail);
  }

  /** Binding two runs of shapes one after the other: the second run starts
      where the first stopped. */
  lemma {:induction false} BindShapesAppend<P, F>(a: seq<Shape>, b: seq<Shape>, freqs: seq<F>, params: seq<P>)
    ensures BindShapes(a + b, freqs, params)
         == BindShapes(a, freqs, params) + BindShapes(b, freqs, Drop(params, TotalArity(a)))
  {
    if a == [] {
      assert a + b == b;
    } else {
      BindShapesAppend(a[1..], b, freqs, Drop(params, ShapeArity(a[0])));
      BindShapesAppendStep(a[0], a[1..], b, freqs, params);
      assert [a[0]] + a[1..] == a;
    }
  }

  /** Series entry `i` is shape `i` bound to what the shapes before it left. */
  lemma BindShapesAt<P, F>(shapes: seq<Shape>, freqs: seq<F>, params: seq<P>, i: nat)
    requires i < |shapes|
    ensures |BindShapes(shapes, freqs, params)| == |shapes|
    ensures BindShapes(shapes, freqs, params)[i]
         == BindShape(shapes[i], freqs, Drop(params, TotalArity(shapes[..i])))
  {
    var pre, post := shapes[..i], shapes[i..];
    var rest := Drop(params, TotalArity(pre));
    assert pre + post == shapes;
    assert [shapes[i]] + post[1..] == post;
    BindShapesAppend(pre, post, freqs, params);
    BindShapesCons(shapes[i], post[1..], freqs, rest);
  }

  /** Element `k` of a slot list takes `arity` values starting where the
      slots before it stopped, clipped to what is there. */
  lemma BindSlotsAt<P, F>(slots: seq<Slot>, freqs: seq<F>, params: seq<P>, k: nat)
    requires k < |slots|
    ensures |BindSlots(slots, freqs, params)| == |slots|
    ensures BindSlots(slots, freqs, params)[k]
         == Element(slots[k].kind, Take(Drop(params, Arity(slots[..k])), slots[k].arity), freqs)
  {
    var pre, post := slots[..k], slots[k..];
    var rest := Drop(params, Arity(pre));
    assert pre + post == slots;
    assert [slots[k]] + post[1..] == post;
    BindSlotsAppend(pre, post, freqs, params);
    BindSlotsCons(slots[k], post[1..], freqs, rest);
  }

  /** The built circuit has the parsed structure: one series entry per term,
      a parallel entry exactly for the terms holding `p`, with one branch per
      listed branch, every element typed by its token's first character and
      given the same frequencies. */
  lemma BuildStructure<P, F>(circuit: string, freqs: seq<F>, params: seq<P>)
    requires WellFormed(circuit)
    ensures |Build(circuit, freqs, params).terms| == |Terms(circuit)|
    ensures forall i :: 0 <= i < |Terms(circuit)| ==>
      (Build(circuit, freqs, params).terms[i].Par? <==> 'p' in Terms(circuit)[i])
    ensures forall i :: 0 <= i < |Terms(circuit)| && 'p' !in Terms(circuit)[i] ==>
      && Build(circuit, freqs, params).terms[i].elem.kind == Terms(circuit)[i][0]
      && Build(circuit, freqs, params).terms[i].elem.freqs == freqs
    ensures forall i :: 0 <= i < |Terms(circuit)| && 'p' in Terms(circuit)[i] ==>
      && |Build(circuit, freqs, params).terms[i].branches| == |Branches(Terms(circuit)[i])|
      && forall j :: 0 <= j < |Branches(Terms(circuit)[i])| ==>
           && Build(circuit, freqs, params).terms[i].branches[j].kind == Branches(Terms(circuit)[i])[j][0]
           && Build(circuit, freqs, params).terms[i].branches[j].freqs == freqs
  {
    var shapes := Parse(circuit);
    var ts := Terms(circuit);
    var nodes := Build(circuit, freqs, params).terms;
    ParseSpec(circuit);
    forall i | 0 <= i < |ts|
      ensures nodes[i].Par? <==> 'p' in ts[i]
      ensures 'p' !in ts[i] ==> nodes[i].elem.kind == ts[i][0] && nodes[i].elem.freqs == freqs
      ensures 'p' in ts[i] ==>
        && |nodes[i].branches| == |Branches(ts[i])|
        && forall j :: 0 <= j < |Branches(ts[i])| ==>
             nodes[i].branches[j].kind == Branches(ts[i])[j][0] && nodes[i].branches[j].freqs == freqs
    {
      var before := Drop(params, TotalArity(shapes[..i]));
      BindShapesAt(shapes, freqs, params, i);
      if 'p' in ts[i] {
        var slots := shapes[i].slots;
        forall j | 0 <= j < |Branches(ts[i])|
          ensures nodes[i].branches[j].kind == Branches(ts[i])[j][0] && nodes[i].branches[j].freqs == freqs
        {
          BindSlotsAt(slots, freqs, before, j);
        }
      }
    }
  }

  // ---------------------------------------------------------------------
  // Binding, as a whole: left to right, clipped, surplus ignored
  // ---------------------------------------------------------------------

  lemma {:induction false} ArityAppend(a: seq<Slot>, b: seq<Slot>)
    ensures Arity(a + b) == Arity(a) + Arity(b)
  {
    if a != [] {
      assert (a + b)[1..] == a[1..] + b;
      ArityAppend(a[1..], b);
    } else {
      assert a + b == b;
    }
  }

  /** Binding a list that starts with slot `x` binds `x` first. */
  lemma BindSlotsCons<P, F>(x: Slot, rest: seq<Slot>, freqs: seq<F>, params: seq<P>)
    ensures BindSlots([x] + rest, freqs, params)
         == [BindSlot(x, freqs, params)] + BindSlots(rest, freqs, Drop(params, x.arity))
    ensures Arity([x] + rest) == x.arity + Arity(rest)
  {
    assert ([x] + rest)[1..] == rest;
  }

  /** One step of `BindSlotsAppend`: binding `[x] + a + b` peels off `x`. */
  lemma BindSlotsAppendStep<P, F>(x: Slot, a: seq<Slot>, b: seq<Slot>, freqs: seq<F>, params: seq<P>)
    requires BindSlots(a + b, freqs, Drop(params, x.arity))
          == BindSlots(a, freqs, Drop(params, x.arity))
           + BindSlots(b, freqs, Drop(Drop(params, x.arity), Arity(a)))
    ensures BindSlots([x] + a + b, freqs, params)
         == BindSlots([x] + a, freqs, params) + BindSlots(b, freqs, Drop(params, Arity([x] + a)))
  {
    var head := [BindSlot(x, freqs, params)];
    var mid := BindSlots(a, freqs, Drop(params, x.arity));
    var tail := BindSlots(b, freqs, Drop(Drop(params, x.arity), Arity(a)));
    ConcatAssoc([x], a, b);
    BindSlotsCons(x, a + b, freqs, params);
    BindSlotsCons(x, a, freqs, params);
    DropDrop(params, x.arity, Arity(a));
    ConcatAssoc(head, mid, tail);
  }

  lemma {:induction false} BindSlotsAppend<P, F>(a: seq<Slot>, b: seq<Slot>, freqs: seq<F>, params: seq<P>)
    ensures BindSlots(a + b, freqs, params)
         == BindSlots(a, freqs, params) + BindSlots(b, freqs, Drop(params, Arity(a)))
  {
    if a == [] {
      assert a + b == b;
    } else {
      BindSlotsAppend(a[1..], b, freqs, Drop(params, a[0].arity));
      BindSlotsAppendStep(a[0], a[1..], b, freqs, params);
      assert [a[0]] + a[1..] == a;
    }
  }

  lemma {:induction false} ShapeAritySlots(shape: Shape)
    ensures ShapeArity(shape) == Arity(SlotsOf(shape))
  {
    if shape.Single? {
      assert SlotsOf(shape)[1..] == [];
    }
  }

  lemma {:induction false} TotalAritySlots(shapes: seq<Shape>)
    ensures TotalArity(shapes) == Arity(Slots(shapes))
  {
    if shapes != [] {
      TotalAritySlots(shapes[1..]);
      ShapeAritySlots(shapes[0]);
      ArityAppend(SlotsOf(shapes[0]), Slots(shapes[1..]));
    }
  }

  /** The elements of the bound circuit, flattened, are the flattened slots
      bound in one left-to-right pass. */
  lemma {:induction false} BindShapesFlat<P, F>(shapes: seq<Shape>, freqs: seq<F>, params: seq<P>)
    ensures Elements(BindShapes(shapes, freqs, params)) == BindSlots(Slots(shapes), freqs, params)
  {
    if shapes != [] {
      var nodes := BindShapes(shapes, freqs, params);
      var rest := Drop(params, ShapeArity(shapes[0]));
      BindShapesFlat(shapes[1..], freqs, rest);
      assert nodes[0] == BindShape(shapes[0], freqs, params);
      assert nodes[1..] == BindShapes(shapes[1..], freqs, rest);
      assert ElementsOf(nodes[0]) == BindSlots(SlotsOf(shapes[0]), freqs, params) by {
        if shapes[0].Single? {
          assert SlotsOf(shapes[0])[1..] == [];
        }
      }
      ShapeAritySlots(shapes[0]);
      BindSlotsAppend(SlotsOf(shapes[0]), Slots(shapes[1..]), freqs, params);
    }
  }

  /** The parameter lists of bound slots, concatenated, are the first
      `Arity(slots)` parameters, or all of them when there are fewer. */
  lemma {:induction false} BindSlotsParams<P, F>(slots: seq<Slot>, freqs: seq<F>, params: seq<P>)
    ensures ParamsOf(BindSlots(slots, freqs, params)) == Take(params, Arity(slots))
  {
    if slots != [] {
      var es := BindSlots(slots, freqs, params);
      BindSlotsParams(slots[1..], freqs, Drop(params, slots[0].arity));
      assert es[1..] == BindSlots(slots[1..], freqs, Drop(params, slots[0].arity));
      TakeThenTake(params, slots[0].arity, Arity(slots[1..]));
    }
  }

  /** Parameters are consumed strictly left to right: the per-element lists,
      concatenated in traversal order, are `params[0:total arity]`. */
  lemma BuildParams<P, F>(circuit: string, freqs: seq<F>, params: seq<P>)
    requires WellFormed(circuit)
    ensures ParamsOf(Elements(Build(circuit, freqs, params).terms))
         == params[..if |params| < TotalArity(Parse(circuit)) then |params| else TotalArity(Parse(circuit))]
  {
    var shapes := Parse(circuit);
    BindShapesFlat(shapes, freqs, params);
    BindSlotsParams(Slots(shapes), freqs, params);
    TotalAritySlots(shapes);
  }

  lemma {:induction false} ArityPrefix(slots: seq<Slot>, k: nat)
    requires k < |slots|
    ensures Arity(slots[..k]) + slots[k].arity <= Arity(slots)
  {
    ArityAppend(slots[..k], slots[k..]);
    assert slots[..k] + slots[k..] == slots;
    assert slots[k..][1..] == slots[k + 1..];
  }

  /** Element `k` in traversal order has the type code of slot `k` and the
      frequencies; it takes the `arity` values that follow those of the
      elements before it, clipped to what is left; and when there are at
      least as many parameters as the circuit asks for, it gets exactly its
      `arity` values. */
  lemma BuildElementAt<P, F>(circuit: string, freqs: seq<F>, params: seq<P>, k: nat)
    requires WellFormed(circuit) && k < |Slots(Parse(circuit))|
    ensures |Elements(Build(circuit, freqs, params).terms)| == |Slots(Parse(circuit))|
    ensures Elements(Build(circuit, freqs, params).terms)[k]
         == Element(Slots(Parse(circuit))[k].kind,
                    Take(Drop(params, Arity(Slots(Parse(circuit))[..k])), Slots(Parse(circuit))[k].arity),
                    freqs)
    ensures |params| >= TotalArity(Parse(circuit)) ==>
      && Arity(Slots(Parse(circuit))[..k]) + Slots(Parse(circuit))[k].arity <= |params|
      && Elements(Build(circuit, freqs, params).terms)[k].params
        == params[Arity(Slots(Parse(circuit))[..k]) .. Arity(Slots(Parse(circuit))[..k]) + Slots(Parse(circuit))[k].arity]
  {
    BindElementAt(Parse(circuit), freqs, params, k);
  }

  /** `BuildElementAt` for any list of shapes. */
  lemma BindElementAt<P, F>(shapes: seq<Shape>, freqs: seq<F>, params: seq<P>, k: nat)
    requires k < |Slots(shapes)|
    ensures |Elements(BindShapes(shapes, freqs, params))| == |Slots(shapes)|
    ensures Elements(BindShapes(shapes, freqs, params))[k]
         == Element(Slots(shapes)[k].kind, Take(Drop(params, Arity(Slots(shapes)[..k])), Slots(shapes)[k].arity), freqs)
    ensures |params| >= TotalArity(shapes) ==>
      && Arity(Slots(shapes)[..k]) + Slots(shapes)[k].arity <= |params|
      && Elements(BindShapes(shapes, freqs, params))[k].params
        == params[Arity(Slots(shapes)[..k]) .. Arity(Slots(shapes)[..k]) + Slots(shapes)[k].arity]
  {
    var slots := Slots(shapes);
    BindShapesFlat(shapes, freqs, params);
    BindSlotsAt(slots, freqs, params, k);
    if |params| >= TotalArity(shapes) {
      TotalAritySlots(shapes);
      BindSlotsExact(slots, freqs, params, k);
    }
  }

  /** With enough parameters, slot `k` takes exactly its `arity` values,
      right after those of the slots before it. */
  lemma BindSlotsExact<P, F>(slots: seq<Slot>, freqs: seq<F>, params: seq<P>, k: nat)
    requires k < |slots| && |params| >= Arity(slots)
    ensures Arity(slots[..k]) + slots[k].arity <= |params|
    ensures BindSlots(slots, freqs, params)[k].params
         == params[Arity(slots[..k]) .. Arity(slots[..k]) + slots[k].arity]
  {
    BindSlotsAt(slots, freqs, params, k);
    ArityPrefix(slots, k);
  }

  lemma {:induction false} BindSlotsSurplus<P, F>(slots: seq<Slot>, freqs: seq<F>, params: seq<P>, extra: seq<P>)
    requires |params| >= Arity(slots)
    ensures BindSlots(slots, freqs, params + extra) == BindSlots(slots, freqs, params)
  {
    if slots != [] {
      var a := slots[0].arity;
      assert Take(params + extra, a) == Take(params, a);
      assert Drop(params + extra, a) == Drop(params, a) + extra;
      BindSlotsSurplus(slots[1..], freqs, Drop(params, a), extra);
    }
  }

  lemma {:induction false} BindShapesSurplus<P, F>(shapes: seq<Shape>, freqs: seq<F>, params: seq<P>, extra: seq<P>)
    requires |params| >= TotalArity(shapes)
    ensures BindShapes(shapes, freqs, params + extra) == BindShapes(shapes, freqs, params)
  {
    if shapes != [] {
      var a := ShapeArity(shapes[0]);
      match shapes[0] {
        case Single(s) =>
          assert Take(params + extra, a) == Take(params, a);
        case Group(ss) =>
          BindSlotsSurplus(ss, freqs, params, extra);
      }
      assert Drop(params + extra, a) == Drop(params, a) + extra;
      BindShapesSurplus(shapes[1..], freqs, Drop(params, a), extra);
    }
  }

  /** Surplus parameters are ignored, with no error: appending values after
      the first `total arity` does not change the circuit. */
  lemma BuildIgnoresSurplus<P, F>(circuit: string, freqs: seq<F>, params: seq<P>, extra: seq<P>)
    requires WellFormed(circuit) && |params| >= TotalArity(Parse(circuit))
    ensures Build(circuit, freqs, params + extra) == Build(circuit, freqs, params)
  {
    BindShapesSurplus(Parse(circuit), freqs, params, extra);
  }

  /** Spaces anywhere in the string make no difference to the circuit. */
  lemma BuildIgnoresSpaces<P, F>(circuit: string, freqs: seq<F>, params: seq<P>)
    ensures Terms(Without(circuit, {' '})) == Terms(circuit)
    ensures WellFormed(circuit) <==> WellFormed(Without(circuit, {' '}))
    ensures WellFormed(circuit) ==>
      Build(Without(circuit, {' '}), freqs, params) == Build(circuit, freqs, params)
  {
    WithoutWithout(circuit, {' '}, {' '});
    assert {' '} + {' '} == {' '};
  }
}
