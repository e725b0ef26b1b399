/** `calculateCircuitLength` of impedance/fitting.py: the number of
    element type codes written in a circuit string, one per parameter name
    when every name is a type code followed by an index. */
module CircuitLength {
  import opened PyStr

  /** `l1`: the type codes whose occurrences are counted, in the source's order. */
  const ElementCodes: seq<char> := ['R', 'E', 'W', 'C', 'A', 'G']

  /** The characters of `xs`, as a set. */
  function CharSet(xs: seq<char>): set<char>
  {
    set c | c in xs
  }

  /** Number of characters of `s` that lie in `cs`. */
  function CountIn(s: string, cs: set<char>): (n: nat)
    ensures n <= |s|
    ensures n == 0 <==> forall i :: 0 <= i < |s| ==> s[i] !in cs
  {
    if s == [] then 0
    else
      assert forall i :: 1 <= i < |s| ==> s[i] == s[1..][i - 1];
      (if s[0] in cs then 1 else 0) + CountIn(s[1..], cs)
  }

  /** Counting one more character `c` adds the occurrences of `c`. */
  lemma {:induction false} CountInAdd(s: string, cs: set<char>, c: char)
    requires c !in cs
    ensures CountIn(s, cs + {c}) == CountIn(s, cs) + Count(s, c)
  {
    if s != [] {
      CountInAdd(s[1..], cs, c);
    }
  }

  /** The codes are distinct, so each round of the loop counts a new character. */
  lemma CodesDistinct(i: nat)
    requires i < |ElementCodes|
    ensures ElementCodes[i] !in ElementCodes[..i]
    ensures CharSet(ElementCodes[..i + 1]) == CharSet(ElementCodes[..i]) + {ElementCodes[i]}
  {
    assert ElementCodes[..i + 1] == ElementCodes[..i] + [ElementCodes[i]];
  }

  /** `calculateCircuitLength`: `circuit.count(char)` summed over the codes. */
  method CalculateCircuitLength(circuit: string) returns (length: nat)
    ensures length == CountIn(circuit, CharSet(ElementCodes))
    ensures length <= |circuit|
  {
    length := 0;
    var i := 0;
    while i < |ElementCodes|
      invariant 0 <= i <= |ElementCodes|
      invariant length == CountIn(circuit, CharSet(ElementCodes[..i]))
    {
      var ch := ElementCodes[i];
      CodesDistinct(i);
      CountInAdd(circuit, CharSet(ElementCodes[..i]), ch);
      length := length + Count(circuit, ch);
      i := i + 1;
    }
    assert ElementCodes[..i] == ElementCodes;
  }

  /** The count of a concatenation is the sum of the counts. */
  lemma {:induction false} CountInAppend(s: string, t: string, cs: set<char>)
    ensures CountIn(s + t, cs) == CountIn(s, cs) + CountIn(t, cs)
  {
    if s == [] {
      assert s + t == t;
    } else {
      assert (s + t)[0] == s[0] && (s + t)[1..] == s[1..] + t;
      CountInAppend(s[1..], t, cs);
    }
  }

  /** The counted characters are exactly those that removing `cs` takes away. */
  lemma {:induction false} CountInWithout(s: string, cs: set<char>)
    ensures CountIn(s, cs) + |Without(s, cs)| == |s|
  {
    if s != [] {
      CountInWithout(s[1..], cs);
    }
  }

  /** Characters outside `cs`, removed anywhere, do not change the count. */
  lemma {:induction false} OtherCharsIgnored(s: string, cs: set<char>, others: set<char>)
    requires cs !! others
    ensures CountIn(Without(s, others), cs) == CountIn(s, cs)
  {
    if s != [] {
      OtherCharsIgnored(s[1..], cs, others);
      if s[0] !in others {
        assert Without(s, others) == [s[0]] + Without(s[1..], others);
        assert ([s[0]] + Without(s[1..], others))[1..] == Without(s[1..], others);
      }
    }
  }

  /** In particular underscores, spaces and the structural characters of a
      circuit string are never counted. */
  lemma LengthIgnoresStructure(circuit: string)
    ensures CountIn(Without(circuit, {'_', ' ', 'p', 's', '(', ')', ',', '-', '/'}), CharSet(ElementCodes))
         == CountIn(circuit, CharSet(ElementCodes))
  {
    assert CharSet(ElementCodes) == {'R', 'E', 'W', 'C', 'A', 'G'};
    OtherCharsIgnored(circuit, CharSet(ElementCodes), {'_', ' ', 'p', 's', '(', ')', ',', '-', '/'});
  }
}
