/** The circuit-string compiler `buildCircuit` of impedance/fitting.py.

    The source turns a topology string such as `R0-p(R1,E1/E2)-W1/W2` and a
    flat parameter list into the text of a Python expression
    `s([R([..],f), p((R([..],f), E([..],f))), W([..],f)])` that is evaluated
    later. Here that expression is a tree: a `Series` of nodes, each a `Leaf`
    element or a `Par` group of elements, every element carrying its type
    code, the parameters it was given and the frequencies. Parameter and
    frequency values are opaque (`P`, `F`).

    The specification is split in two: `Parse` reads the string into slots
    (type code and arity), and `BindShapes` hands out parameters to the slots
    left to right with Python's clipping slices. `BuildCircuit` is the
    source's single pass with its loops, proved equal to `Build`. */
module Circuit {
  import opened PyStr

  /** An element slot: its type code and how many parameters it takes. */
  datatype Slot = Slot(kind: char, arity: nat)

  /** A series term as parsed: one element, or a parallel group of elements. */
  datatype Shape = Single(slot: Slot) | Group(slots: seq<Slot>)

  /** An element with its parameters bound, such as `E([15, 0.9], f)`. */
  datatype Element<P, F> = Element(kind: char, params: seq<P>, freqs: seq<F>)

  /** A series entry: one element, or `p((...))` over its branches. */
  datatype Node<P, F> = Leaf(elem: Element<P, F>) | Par(branches: seq<Element<P, F>>)

  /** The whole circuit, `s([...])` over its series entries. */
  datatype Circuit<P, F> = Series(terms: seq<Node<P, F>>)

  /** The characters a parallel term is stripped of before it is split into branches. */
  const ParallelTrim: set<char> := {'p', '(', ')'}

  // ---------------------------------------------------------------------
  // Reading the string
  // ---------------------------------------------------------------------

  /** The series terms: spaces removed, then split on `-`. */
  function Terms(circuit: string): (ts: seq<string>)
    ensures |ts| >= 1
    ensures Join(ts, '-') == Without(circuit, {' '})
    ensures forall i :: 0 <= i < |ts| ==> '-' !in ts[i]
  {
    Split(Without(circuit, {' '}), '-')
  }

  /** A term holding a `p` anywhere is read as a parallel group. */
  predicate IsGroup(term: string)
  {
    'p' in term
  }

  /** The branches of a parallel term: stripped of `p`, `(` and `)` at both ends, split on `,`. */
  function Branches(term: string): (bs: seq<string>)
    ensures |bs| >= 1
    ensures Join(bs, ',') == Strip(term, ParallelTrim)
    ensures forall j :: 0 <= j < |bs| ==> ',' !in bs[j]
  {
    Split(Strip(term, ParallelTrim), ',')
  }

  /** A term the source can read without an index error on `elem[0]` or `par[0]`.
      A readable group has something left once `p(` and `)` are stripped. */
  predicate TermOk(term: string)
    ensures TermOk(term) && IsGroup(term) ==> Strip(term, ParallelTrim) != []
  {
    JoinHead(Branches(term), ',');
    && term != []
    && (IsGroup(term) ==> forall j :: 0 <= j < |Branches(term)| ==> Branches(term)[j] != [])
  }

  /** Every term and every branch is non-empty. An empty or all-space
      circuit is not well-formed. */
  predicate WellFormed(circuit: string)
    ensures WellFormed(circuit) ==> Without(circuit, {' '}) != []
  {
    JoinHead(Terms(circuit), '-');
    forall i :: 0 <= i < |Terms(circuit)| ==> TermOk(Terms(circuit)[i])
  }

  /** An element token: type code its first character, arity the number of `/`-separated pieces. */
  function ParseToken(token: string): (slot: Slot)
    requires token != []
    ensures slot.kind == token[0]
    ensures slot.arity >= 1
  {
    Slot(token[0], |Split(token, '/')|)
  }

  /** A term holding `p` reads as a group with one slot per branch, any other as one slot. */
  function ParseTerm(term: string): (shape: Shape)
    requires TermOk(term)
    ensures shape.Group? <==> IsGroup(term)
    ensures shape.Group? ==> |shape.slots| == |Branches(term)|
  {
    if IsGroup(term) then
      var bs := Branches(term);
      Group(seq(|bs|, j requires 0 <= j < |bs| => ParseToken(bs[j])))
    else
      Single(ParseToken(term))
  }

  /** The slots of the circuit, term by term. */
  function Parse(circuit: string): (shapes: seq<Shape>)
    requires WellFormed(circuit)
    ensures |shapes| == |Terms(circuit)|
  {
    var ts := Terms(circuit);
    seq(|ts|, i requires 0 <= i < |ts| => ParseTerm(ts[i]))
  }

  // ---------------------------------------------------------------------
  // Handing out parameters
  // ---------------------------------------------------------------------

  /** Total arity of a sequence of slots. */
  function Arity(slots: seq<Slot>): nat
  {
    if slots == [] then 0 else slots[0].arity + Arity(slots[1..])
  }

  function ShapeArity(shape: Shape): nat
  {
    match shape
    case Single(s) => s.arity
    case Group(ss) => Arity(ss)
  }

  /** Number of parameters the whole parsed circuit asks for. */
  function TotalArity(shapes: seq<Shape>): nat
  {
    if shapes == [] then 0 else ShapeArity(shapes[0]) + TotalArity(shapes[1..])
  }

  /** One slot takes `params[0:arity]` (fewer, or none, when the list runs short). */
  function BindSlot<P, F>(slot: Slot, freqs: seq<F>, params: seq<P>): Element<P, F>
  {
    Element(slot.kind, Take(params, slot.arity), freqs)
  }

  function BindSlots<P, F>(slots: seq<Slot>, freqs: seq<F>, params: seq<P>): (es: seq<Element<P, F>>)
    ensures |es| == |slots|
  {
    if slots == [] then []
    else [BindSlot(slots[0], freqs, params)] + BindSlots(slots[1..], freqs, Drop(params, slots[0].arity))
  }

  function BindShape<P, F>(shape: Shape, freqs: seq<F>, params: seq<P>): Node<P, F>
  {
    match shape
    case Single(s) => Leaf(BindSlot(s, freqs, params))
    case Group(ss) => Par(BindSlots(ss, freqs, params))
  }

  function BindShapes<P, F>(shapes: seq<Shape>, freqs: seq<F>, params: seq<P>): (nodes: seq<Node<P, F>>)
    ensures |nodes| == |shapes|
  {
    if shapes == [] then []
    else [BindShape(shapes[0], freqs, params)] + BindShapes(shapes[1..], freqs, Drop(params, ShapeArity(shapes[0])))
  }

  /** What `buildCircuit(circuit, freqs, *params)` denotes. */
  function Build<P, F>(circuit: string, freqs: seq<F>, params: seq<P>): (c: Circuit<P, F>)
    requires WellFormed(circuit)
    ensures |c.terms| == |Terms(circuit)|
  {
    Series(BindShapes(Parse(circuit), freqs, params))
  }

  // ---------------------------------------------------------------------
  // Flat views, in traversal order
  // ---------------------------------------------------------------------

  function SlotsOf(shape: Shape): seq<Slot>
  {
    match shape
    case Single(s) => [s]
    case Group(ss) => ss
  }

  /** All slots: series terms in order, a group's branches in listed order. */
  function Slots(shapes: seq<Shape>): seq<Slot>
  {
    if shapes == [] then [] else SlotsOf(shapes[0]) + Slots(shapes[1..])
  }

  function ElementsOf<P, F>(node: Node<P, F>): seq<Element<P, F>>
  {
    match node
    case Leaf(e) => [e]
    case Par(es) => es
  }

  /** All elements of a circuit, in the same traversal order as `Slots`. */
  function Elements<P, F>(nodes: seq<Node<P, F>>): seq<Element<P, F>>
  {
    if nodes == [] then [] else ElementsOf(nodes[0]) + Elements(nodes[1..])
  }

  /** The per-element parameter lists, concatenated. */
  function ParamsOf<P, F>(elems: seq<Element<P, F>>): seq<P>
  {
    if elems == [] then [] else elems[0].params + ParamsOf(elems[1..])
  }

  // ---------------------------------------------------------------------
  // The source's single pass
  // ---------------------------------------------------------------------

  /** One step of the branch loop: the slot at `j` takes its parameters first. */
  lemma BindSlotsStep<P, F>(slots: seq<Slot>, j: nat, freqs: seq<F>, params: seq<P>)
    requires j < |slots|
    ensures BindSlots(slots[j..], freqs, params)
         == [BindSlot(slots[j], freqs, params)] + BindSlots(slots[j + 1..], freqs, Drop(params, slots[j].arity))
    ensures Drop(params, Arity(slots[j..])) == Drop(Drop(params, slots[j].arity), Arity(slots[j + 1..]))
  {
    assert slots[j..][1..] == slots[j + 1..];
    DropDrop(params, slots[j].arity, Arity(slots[j + 1..]));
  }

  /** One step of the term loop: the shape at `i` takes its parameters first. */
  lemma BindShapesStep<P, F>(shapes: seq<Shape>, i: nat, freqs: seq<F>, params: seq<P>)
    requires i < |shapes|
    ensures BindShapes(shapes[i..], freqs, params)
         == [BindShape(shapes[i], freqs, params)] + BindShapes(shapes[i + 1..], freqs, Drop(params, ShapeArity(shapes[i])))
  {
    assert shapes[i..][1..] == shapes[i + 1..];
  }

  lemma ConcatAssoc<T>(a: seq<T>, b: seq<T>, c: seq<T>)
    ensures a + b + c == a + (b + c)
  {
  }

  /** The slots of a parallel term, one per branch. */
  lemma GroupSlots(term: string)
    requires TermOk(term) && IsGroup(term)
    ensures ParseTerm(term).Group? && |ParseTerm(term).slots| == |Branches(term)|
    ensures forall k :: 0 <= k < |Branches(term)| ==>
      Branches(term)[k] != []
      && ParseTerm(term).slots[k] == Slot(Branches(term)[k][0], |Split(Branches(term)[k], '/')|)
  {
  }

  /** The parsed circuit, term by term, with each term readable. */
  lemma ParsedTerms(circuit: string)
    requires WellFormed(circuit)
    ensures |Parse(circuit)| == |Terms(circuit)|
    ensures forall k :: 0 <= k < |Terms(circuit)| ==>
      TermOk(Terms(circuit)[k]) && Parse(circuit)[k] == ParseTerm(Terms(circuit)[k])
  {
  }

  /** A non-empty term without `p` can be read, and is one element slot. */
  lemma SingleSlot(term: string)
    requires term != [] && !IsGroup(term)
    ensures TermOk(term) && ParseTerm(term) == Single(Slot(term[0], |Split(term, '/')|))
  {
  }

  /** One step of the term loop: the node built for term `i` from `params` is appended. */
  lemma SeriesStep<P, F>(series: seq<Node<P, F>>, shapes: seq<Shape>, i: nat, freqs: seq<F>, params: seq<P>, all: seq<P>)
    requires i < |shapes|
    requires series + BindShapes(shapes[i..], freqs, params) == BindShapes(shapes, freqs, all)
    ensures series + [BindShape(shapes[i], freqs, params)]
          + BindShapes(shapes[i + 1..], freqs, Drop(params, ShapeArity(shapes[i])))
         == BindShapes(shapes, freqs, all)
  {
    BindShapesStep(shapes, i, freqs, params);
    ConcatAssoc(series, [BindShape(shapes[i], freqs, params)],
      BindShapes(shapes[i + 1..], freqs, Drop(params, ShapeArity(shapes[i]))));
  }

  /** The inner loop of `buildCircuit` over the branches of a parallel term:
      each branch takes `parameters[0:n]` for its arity `n`, and `parameters`
      becomes `parameters[n:]`. Returns the group and what is left. */
  method BuildParallel<P, F>(term: string, frequencies: seq<F>, parameters: seq<P>)
    returns (node: Node<P, F>, rest: seq<P>)
    requires TermOk(term) && IsGroup(term)
    ensures node == BindShape(ParseTerm(term), frequencies, parameters)
    ensures rest == Drop(parameters, ShapeArity(ParseTerm(term)))
  {
    rest := parameters;
    var branches := Split(Strip(term, ParallelTrim), ',');
    ghost var slots := ParseTerm(term).slots;
    GroupSlots(term);
    var group: seq<Element<P, F>> := [];
    var j := 0;
    while j < |branches|
      invariant 0 <= j <= |branches|
      invariant group + BindSlots(slots[j..], frequencies, rest) == BindSlots(slots, frequencies, parameters)
      invariant Drop(rest, Arity(slots[j..])) == Drop(parameters, Arity(slots))
    {
      var par := branches[j];
      var elemType := par[0];
      var elemNumber := |Split(par, '/')|;
      BindSlotsStep(slots, j, frequencies, rest);
      var e := Element(elemType, Take(rest, elemNumber), frequencies);
      assert e == BindSlot(slots[j], frequencies, rest);
      ConcatAssoc(group, [e], BindSlots(slots[j + 1..], frequencies, Drop(rest, elemNumber)));
      group := group + [e];
      rest := Drop(rest, elemNumber);
      j := j + 1;
    }
    assert slots[j..] == [];
    node := Par(group);
  }

  /** `buildCircuit`: removes spaces, splits on `-`, and walks the terms,
      taking `parameters[0:n]` for an element of arity `n` and reassigning
      `parameters` to `parameters[n:]`. Surplus parameters are ignored and
      missing ones leave later elements short: no count is checked. */
  method BuildCircuit<P, F>(circuit: string, frequencies: seq<F>, parameters: seq<P>) returns (c: Circuit<P, F>)
    requires WellFormed(circuit)
    ensures c == Build(circuit, frequencies, parameters)
  {
    var rest := parameters;
    var terms := Split(Without(circuit, {' '}), '-');
    ghost var shapes := Parse(circuit);
    ParsedTerms(circuit);
    var series: seq<Node<P, F>> := [];
    var i := 0;
    while i < |terms|
      invariant 0 <= i <= |terms|
      invariant series + BindShapes(shapes[i..], frequencies, rest) == BindShapes(shapes, frequencies, parameters)
    {
      var elem := terms[i];
      ghost var before := rest;
      var node: Node<P, F>;
      if 'p' in elem {
        node, rest := BuildParallel(elem, frequencies, rest);
      } else {
        SingleSlot(elem);
        var elemType := elem[0];
        var elemNumber := |Split(elem, '/')|;
        node := Leaf(Element(elemType, Take(rest, elemNumber), frequencies));
        rest := Drop(rest, elemNumber);
      }
      SeriesStep(series, shapes, i, frequencies, before, parameters);
      series := series + [node];
      i := i + 1;
    }
    assert shapes[i..] == [];
    c := Series(series);
  }
}
