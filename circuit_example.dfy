/** The circuit of the repository's `test_buildCircuit`, worked through the
    specification. */
module CircuitExample {
  import opened PyStr
  import opened Circuit


  const Example: string := "R_0-p(R_1, E_1/E_2)-W_1/W_2"

  /** The example without its one space. */
  const Cleaned: string := "R_0-p(R_1,E_1/E_2)-W_1/W_2"

  /** The example's three series terms. */
  const ExampleTermList: seq<string> := ["R_0", "p(R_1,E_1/E_2)", "W_1/W_2"]

  /** The slots the example reads as. */
  const ExampleShapes: seq<Shape> := [Single(Slot('R', 1)), Group([Slot('R', 1), Slot('E', 2)]), Single(Slot('W', 2))]

  lemma JoinTwo(a: string, b: string, sep: char)
    ensures Join([a, b], sep) == a + [sep] + b
  {
    assert [a, b][1..] == [b];
  }

  /** A string made of two separator-free words around one separator splits into them. */
  lemma SplitTwo(a: string, b: string, sep: char, s: string)
    requires sep !in a && sep !in b && s == a + [sep] + b
    ensures Split(s, sep) == [a, b]
  {
    JoinTwo(a, b, sep);
    SplitJoin([a, b], sep);
  }

  lemma JoinThree(a: string, b: string, c: string, sep: char)
    ensures Join([a, b, c], sep) == a + [sep] + b + [sep] + c
  {
    assert [a, b, c][1..] == [b, c];
    JoinTwo(b, c, sep);
  }

  /** The example around its one space, and the two sides put back together. */
  lemma ExampleAroundSpace()
    ensures Example == "R_0-p(R_1," + " " + "E_1/E_2)-W_1/W_2"
    ensures "R_0-p(R_1," + "E_1/E_2)-W_1/W_2" == Cleaned
  {
  }

  lemma ExampleHeadHasNoSpace()
    ensures Without("R_0-p(R_1,", {' '}) == "R_0-p(R_1,"
  {
    WithoutNothing("R_0-p(R_1,", {' '});
  }

  lemma ExampleTailHasNoSpace()
    ensures Without("E_1/E_2)-W_1/W_2", {' '}) == "E_1/E_2)-W_1/W_2"
  {
    WithoutNothing("E_1/E_2)-W_1/W_2", {' '});
  }

  lemma ExampleCleaned()
    ensures Without(Example, {' '}) == Cleaned
  {
    ExampleAroundSpace();
    ExampleHeadHasNoSpace();
    ExampleTailHasNoSpace();
    WithoutDropsOne("R_0-p(R_1,", ' ', "E_1/E_2)-W_1/W_2", {' '});
  }

  lemma CleanedJoined()
    ensures Join(ExampleTermList, '-') == Cleaned
  {
    JoinThree("R_0", "p(R_1,E_1/E_2)", "W_1/W_2", '-');
  }

  lemma CleanedSplit()
    ensures Split(Cleaned, '-') == ExampleTermList
  {
    CleanedJoined();
    SplitJoin(ExampleTermList, '-');
  }

  lemma ExampleTerms()
    ensures Terms(Example) == ExampleTermList
  {
    ExampleCleaned();
    CleanedSplit();
  }

  lemma GroupStripped()
    ensures Strip("p(R_1,E_1/E_2)", ParallelTrim) == "R_1,E_1/E_2"
  {
    assert "p(R_1,E_1/E_2)" == "p(" + "R_1,E_1/E_2" + ")";
    StripAround("p(", "R_1,E_1/E_2", ")", ParallelTrim);
  }

  lemma GroupSplit()
    ensures Split("R_1,E_1/E_2", ',') == ["R_1", "E_1/E_2"]
  {
    SplitTwo("R_1", "E_1/E_2", ',', "R_1,E_1/E_2");
  }

  lemma ExampleBranches()
    ensures Branches("p(R_1,E_1/E_2)") == ["R_1", "E_1/E_2"]
  {
    GroupStripped();
    GroupSplit();
  }

  /** A token without `/` is one slot of arity 1. */
  lemma PlainToken(token: string)
    requires token != [] && '/' !in token
    ensures ParseToken(token) == Slot(token[0], 1)
  {
    SplitNone(token, '/');
  }

  /** A token with one `/` between two words is one slot of arity 2. */
  lemma PairToken(a: string, b: string, token: string)
    requires a != [] && '/' !in a && '/' !in b && token == a + ['/'] + b
    ensures ParseToken(token) == Slot(a[0], 2)
  {
    SplitTwo(a, b, '/', token);
  }

  /** A term starting with `p` whose two branches are non-empty can be read. */
  lemma TwoBranchesOk(term: string, b0: string, b1: string)
    requires term != [] && term[0] == 'p'
    requires Branches(term) == [b0, b1] && b0 != [] && b1 != []
    ensures IsGroup(term) && TermOk(term)
  {
  }

  lemma GroupTermOk()
    ensures IsGroup("p(R_1,E_1/E_2)") && TermOk("p(R_1,E_1/E_2)")
  {
    ExampleBranches();
    TwoBranchesOk("p(R_1,E_1/E_2)", "R_1", "E_1/E_2");
  }

  /** A parallel term with two branches reads as a group of their two slots. */
  lemma TwoBranches(term: string, b0: string, b1: string)
    requires TermOk(term) && IsGroup(term) && Branches(term) == [b0, b1]
    ensures b0 != [] && b1 != []
    ensures ParseTerm(term) == Group([ParseToken(b0), ParseToken(b1)])
  {
    assert Branches(term)[0] != [] && Branches(term)[1] != [];
  }

  lemma GroupTerm()
    ensures TermOk("p(R_1,E_1/E_2)") && ParseTerm("p(R_1,E_1/E_2)") == ExampleShapes[1]
  {
    PlainToken("R_1");
    PairToken("E_1", "E_2", "E_1/E_2");
    GroupTermOk();
    ExampleBranches();
    TwoBranches("p(R_1,E_1/E_2)", "R_1", "E_1/E_2");
  }

  lemma FirstTerm()
    ensures TermOk("R_0") && ParseTerm("R_0") == ExampleShapes[0]
  {
    PlainToken("R_0");
  }

  lemma LastTerm()
    ensures TermOk("W_1/W_2") && ParseTerm("W_1/W_2") == ExampleShapes[2]
  {
    PairToken("W_1", "W_2", "W_1/W_2");
    SingleSlot("W_1/W_2");
  }

  /** A circuit of three readable terms parses term by term. */
  lemma ThreeTerms(circuit: string, t0: string, t1: string, t2: string, shapes: seq<Shape>)
    requires Terms(circuit) == [t0, t1, t2] && |shapes| == 3
    requires TermOk(t0) && ParseTerm(t0) == shapes[0]
    requires TermOk(t1) && ParseTerm(t1) == shapes[1]
    requires TermOk(t2) && ParseTerm(t2) == shapes[2]
    ensures WellFormed(circuit) && Parse(circuit) == shapes
  {
  }

  lemma ExampleParse()
    ensures WellFormed(Example)
    ensures Parse(Example) == ExampleShapes
  {
    ExampleTerms();
    FirstTerm();
    GroupTerm();
    LastTerm();
    ThreeTerms(Example, "R_0", "p(R_1,E_1/E_2)", "W_1/W_2", ExampleShapes);
  }

  lemma BindExampleGroup<P, F>(b: P, c: P, d: P, rest: seq<P>, freqs: seq<F>)
    ensures BindShape(ExampleShapes[1], freqs, [b, c, d] + rest)
         == Par([Element('R', [b], freqs), Element('E', [c, d], freqs)])
    ensures Drop([b, c, d] + rest, ShapeArity(ExampleShapes[1])) == rest
  {
    var ps := [b, c, d] + rest;
    assert Take(ps, 1) == [b];
    assert Drop(ps, 1) == [c, d] + rest;
    assert Take([c, d] + rest, 2) == [c, d];
    assert Drop([c, d] + rest, 2) == rest;
    assert Arity([Slot('E', 2)]) == 2;
    assert Drop(ps, 3) == rest;
    var slots := [Slot('R', 1), Slot('E', 2)];
    assert slots[1..] == [Slot('E', 2)] && slots[1..][1..] == [];
    assert BindSlots([Slot('E', 2)], freqs, [c, d] + rest) == [Element('E', [c, d], freqs)];
    assert BindSlots(slots, freqs, ps) == [Element('R', [b], freqs)] + [Element('E', [c, d], freqs)];
  }

  lemma BindExampleShapes<P, F>(a: P, b: P, c: P, d: P, e: P, g: P, freqs: seq<F>)
    ensures BindShapes(ExampleShapes, freqs, [a, b, c, d, e, g])
         == [Leaf(Element('R', [a], freqs)),
             Par([Element('R', [b], freqs), Element('E', [c, d], freqs)]),
             Leaf(Element('W', [e, g], freqs))]
  {
    var ps := [a, b, c, d, e, g];
    var shapes := ExampleShapes;
    assert BindShapes(shapes[2..], freqs, [e, g]) == [Leaf(Element('W', [e, g], freqs))] by {
      assert Take([e, g], 2) == [e, g];
      assert shapes[2..][1..] == [];
    }
    BindExampleGroup(b, c, d, [e, g], freqs);
    assert BindShapes(shapes[1..], freqs, [b, c, d] + [e, g])
        == [Par([Element('R', [b], freqs), Element('E', [c, d], freqs)]), Leaf(Element('W', [e, g], freqs))] by {
      assert shapes[1..][1..] == shapes[2..];
    }
    assert Take(ps, 1) == [a];
    assert Drop(ps, 1) == [b, c, d] + [e, g];
  }

  /** `R_0-p(R_1, E_1/E_2)-W_1/W_2` with six parameters gives `R` the first,
      a parallel group of `R` (the second) and `E` (the third and fourth),
      and `W` the last two. */
  lemma BuildExample<P, F>(a: P, b: P, c: P, d: P, e: P, g: P, freqs: seq<F>)
    ensures WellFormed(Example)
    ensures Build(Example, freqs, [a, b, c, d, e, g])
         == Series([Leaf(Element('R', [a], freqs)),
                    Par([Element('R', [b], freqs), Element('E', [c, d], freqs)]),
                    Leaf(Element('W', [e, g], freqs))])
  {
    ExampleParse();
    BindExampleShapes(a, b, c, d, e, g, freqs);
  }
}
