/** The default parameter bounds of `circuit_fit` in impedance/fitting.py,
    used when the caller passes none. Every parameter name in a circuit
    string is taken to be two characters, a type code and a digit, once
    underscores are gone: the structural characters `ps(),-/` are dropped,
    what is left is read two characters at a time, and each pair gets a
    lower bound of 0 and an upper bound of 1 for a CPE exponent (`E2`) or
    infinity for anything else. */
module Bounds {
  import opened PyStr

  /** An upper bound: `1`, or `np.inf`. */
  datatype Upper = One | Infinity

  /** The characters the list comprehension leaves out: `'ps(),-/'`. */
  const Structural: set<char> := {'p', 's', '(', ')', ',', '-', '/'}

  /** `p_string`: the circuit after `circuit.replace('_', '')`, without its structural characters. */
  function ParamChars(circuit: string): (pString: string)
    ensures |pString| <= |circuit|
    ensures forall i :: 0 <= i < |pString| ==> pString[i] != '_' && pString[i] !in Structural
  {
    WithoutWithout(circuit, {'_'}, Structural);
    WithoutExcludes(circuit, {'_'} + Structural);
    Without(Without(circuit, {'_'}), Structural)
  }

  /** `s[::2]`: the characters at even positions. */
  function Evens(s: string): (r: string)
    ensures |r| == (|s| + 1) / 2
    ensures forall i :: 0 <= i < |r| ==> r[i] == s[2 * i]
  {
    if |s| <= 1 then s
    else
      var rest := Evens(s[2..]);
      assert forall i :: 1 <= i < |rest| + 1 ==> ([s[0]] + rest)[i] == s[2 * i];
      [s[0]] + rest
  }

  /** `s[1::2]`: the characters at odd positions. */
  function Odds(s: string): (r: string)
    ensures |r| == |s| / 2
    ensures forall i :: 0 <= i < |r| ==> r[i] == s[2 * i + 1]
  {
    if |s| <= 1 then [] else Evens(s[1..])
  }

  /** `zip(xs, ys)`: pairs up to the shorter length. */
  function Zip(xs: string, ys: string): (r: seq<(char, char)>)
    ensures |r| == if |xs| <= |ys| then |xs| else |ys|
    ensures forall i :: 0 <= i < |r| ==> r[i] == (xs[i], ys[i])
  {
    if xs == [] || ys == [] then []
    else [(xs[0], ys[0])] + Zip(xs[1..], ys[1..])
  }

  /** The upper bound of one two-character parameter name, `1` exactly for `E2`. */
  function PairBound(a: char, b: char): (u: Upper)
    ensures u == One <==> [a, b] == "E2"
  {
    PairIsE2(a, b);
    if a == 'E' && b == '2' then One else Infinity
  }

  /** The upper bounds, read off two characters at a time; an odd last character is ignored. */
  function UpperBounds(pString: string): (r: seq<Upper>)
    ensures |r| == |pString| / 2
  {
    if |pString| < 2 then [] else [PairBound(pString[0], pString[1])] + UpperBounds(pString[2..])
  }

  /** Upper bound `i` belongs to characters `2i` and `2i + 1`. */
  lemma {:induction false} UpperBoundsAt(pString: string, i: nat)
    requires i < |pString| / 2
    ensures UpperBounds(pString)[i] == PairBound(pString[2 * i], pString[2 * i + 1])
  {
    if i > 0 {
      UpperBoundsAt(pString[2..], i - 1);
      assert pString[2..][2 * (i - 1)] == pString[2 * i];
      assert pString[2..][2 * (i - 1) + 1] == pString[2 * i + 1];
    }
  }

  /** Pairing by `zip(p_string[::2], p_string[1::2])` reads consecutive
      characters `2i` and `2i + 1`, and drops an odd last one. */
  lemma PairsAreConsecutive(pString: string, i: nat)
    requires i < |pString| / 2
    ensures |Zip(Evens(pString), Odds(pString))| == |pString| / 2
    ensures Zip(Evens(pString), Odds(pString))[i] == (pString[2 * i], pString[2 * i + 1])
  {
  }

  /** Upper bound `i` is 1 exactly when characters `2i` and `2i + 1` are `E` and `2`. */
  lemma UpperBoundIsOne(pString: string, i: nat)
    requires i < |pString| / 2
    ensures i < |UpperBounds(pString)|
    ensures UpperBounds(pString)[i] == One <==> pString[2 * i] == 'E' && pString[2 * i + 1] == '2'
  {
    UpperBoundsAt(pString, i);
  }

  /** `str(a+b) == "E2"` compares the two characters. */
  lemma PairIsE2(a: char, b: char)
    ensures [a, b] == "E2" <==> a == 'E' && b == '2'
  {
    if [a, b] == "E2" {
      assert [a, b][0] == 'E' && [a, b][1] == '2';
    }
  }

  lemma PrefixStep<T>(xs: seq<T>, i: nat)
    requires i < |xs|
    ensures xs[..i + 1] == xs[..i] + [xs[i]]
  {
  }

  /** The loop over the pairs: one lower bound `0` and one upper bound per pair. */
  method BoundsFromChars(pString: string) returns (lb: seq<int>, ub: seq<Upper>)
    ensures |lb| == |pString| / 2 && |ub| == |pString| / 2
    ensures forall i :: 0 <= i < |lb| ==> lb[i] == 0
    ensures ub == UpperBounds(pString)
  {
    var pairs := Zip(Evens(pString), Odds(pString));
    ghost var spec := UpperBounds(pString);
    assert |pairs| == |spec|;
    lb, ub := [], [];
    var i := 0;
    while i < |pairs|
      invariant 0 <= i <= |pairs|
      invariant |lb| == i && |ub| == i
      invariant forall k :: 0 <= k < i ==> lb[k] == 0
      invariant ub == spec[..i]
    {
      PairsAreConsecutive(pString, i);
      var (a, b) := pairs[i];
      UpperBoundsAt(pString, i);
      PrefixStep(spec, i);
      lb := lb + [0];
      PairIsE2(a, b);
      if [a, b] == "E2" {
        ub := ub + [One];
      } else {
        ub := ub + [Infinity];
      }
      i := i + 1;
    }
    assert spec[..i] == spec;
  }

  /** The bounds `circuit_fit` builds for `circuit` when none are given, as written. */
  method DefaultBounds(circuit: string) returns (lb: seq<int>, ub: seq<Upper>)
    ensures |lb| == |ParamChars(circuit)| / 2 && |ub| == |lb|
    ensures forall i :: 0 <= i < |lb| ==> lb[i] == 0
    ensures ub == UpperBounds(ParamChars(circuit))
  {
    var c := Without(circuit, {'_'});
    var pString := Without(c, Structural);
    lb, ub := BoundsFromChars(pString);
  }

  /** The parameter characters as they would be with spaces removed too, as
      `buildCircuit` removes them. */
  function FixedParamChars(circuit: string): (pString: string)
    ensures pString == Without(ParamChars(circuit), {' '})
  {
    ParamCharsAtOnce(circuit);
    WithoutWithout(circuit, {'_'} + Structural, {' '});
    assert {'_'} + Structural + {' '} == {'_', ' '} + Structural;
    Without(circuit, {'_', ' '} + Structural)
  }

  /** The default bounds with spaces ignored. */
  method FixedDefaultBounds(circuit: string) returns (lb: seq<int>, ub: seq<Upper>)
    ensures |lb| == |FixedParamChars(circuit)| / 2 && |ub| == |lb|
    ensures forall i :: 0 <= i < |lb| ==> lb[i] == 0
    ensures ub == UpperBounds(FixedParamChars(circuit))
  {
    var pString := Without(circuit, {'_', ' '} + Structural);
    lb, ub := BoundsFromChars(pString);
  }

  /** The as-written characters are one removal of `_` and the structural characters. */
  lemma ParamCharsAtOnce(circuit: string)
    ensures ParamChars(circuit) == Without(circuit, {'_'} + Structural)
  {
    WithoutWithout(circuit, {'_'}, Structural);
  }

  /** With spaces ignored, spaces in the circuit string make no difference. */
  lemma FixedIgnoresSpaces(circuit: string)
    ensures FixedParamChars(Without(circuit, {' '})) == FixedParamChars(circuit)
  {
    WithoutWithout(circuit, {' '}, {'_', ' '} + Structural);
    assert {' '} + ({'_', ' '} + Structural) == {'_', ' '} + Structural;
  }

  /** On a circuit string without spaces the fix changes nothing. */
  lemma FixedAgreesWithoutSpaces(circuit: string)
    requires ' ' !in circuit
    ensures FixedParamChars(circuit) == ParamChars(circuit)
  {
    ParamCharsAtOnce(circuit);
    WithoutNothing(circuit, {' '});
    WithoutWithout(circuit, {' '}, {'_'} + Structural);
    assert {' '} + ({'_'} + Structural) == {'_', ' '} + Structural;
  }

  /** Removal applied piecewise to five consecutive pieces. */
  lemma WithoutFive(a: string, b: string, c: string, d: string, e: string, cs: set<char>)
    ensures Without(a + b + c + d + e, cs)
         == Without(a, cs) + Without(b, cs) + Without(c, cs) + Without(d, cs) + Without(e, cs)
  {
    WithoutAppend(a + b + c + d, e, cs);
    WithoutAppend(a + b + c, d, cs);
    WithoutAppend(a + b, c, cs);
    WithoutAppend(a, b, cs);
  }

  /** Removal on a three-character piece keeps exactly the characters outside `cs`, in order. */
  lemma WithoutThree(piece: string, cs: set<char>)
    requires |piece| == 3
    ensures Without(piece, cs)
         == (if piece[0] in cs then [] else [piece[0]])
          + (if piece[1] in cs then [] else [piece[1]])
          + (if piece[2] in cs then [] else [piece[2]])
  {
    assert piece == [piece[0]] + piece[1..] && piece[1..] == [piece[1]] + piece[2..];
    assert piece[2..] == [piece[2]] + [];
    WithoutCons(piece[0], piece[1..], cs);
    WithoutCons(piece[1], piece[2..], cs);
    WithoutCons(piece[2], [], cs);
  }

  /** The circuit `p(R_1, E_1/E_2)` cut into the pieces `p(R`, `_1,`, ` E_`, `1/E` and `_2)`. */
  const Spaced: string := "p(R_1, E_1/E_2)"
  const SpacedPieces: seq<string> := ["p(R", "_1,", " E_", "1/E", "_2)"]

  /** As written, each piece keeps its parameter characters and the space. */
  lemma SpacedAsWritten()
    ensures Without(Spaced, {'_'} + Structural) == "R1 E1E2"
  {
    var cs := {'_'} + Structural;
    var ps := SpacedPieces;
    assert Spaced == ps[0] + ps[1] + ps[2] + ps[3] + ps[4];
    WithoutFive(ps[0], ps[1], ps[2], ps[3], ps[4], cs);
    assert Without(ps[0], cs) == "R" by { WithoutThree(ps[0], cs); }
    assert Without(ps[1], cs) == "1" by { WithoutThree(ps[1], cs); }
    assert Without(ps[2], cs) == " E" by { WithoutThree(ps[2], cs); }
    assert Without(ps[3], cs) == "1E" by { WithoutThree(ps[3], cs); }
    assert Without(ps[4], cs) == "2" by { WithoutThree(ps[4], cs); }
  }

  /** With spaces ignored, the space goes too. */
  lemma SpacedFixed()
    ensures Without(Spaced, {'_', ' '} + Structural) == "R1E1E2"
  {
    var cs := {'_', ' '} + Structural;
    var ps := SpacedPieces;
    assert Spaced == ps[0] + ps[1] + ps[2] + ps[3] + ps[4];
    WithoutFive(ps[0], ps[1], ps[2], ps[3], ps[4], cs);
    assert Without(ps[0], cs) == "R" by { WithoutThree(ps[0], cs); }
    assert Without(ps[1], cs) == "1" by { WithoutThree(ps[1], cs); }
    assert Without(ps[2], cs) == "E" by { WithoutThree(ps[2], cs); }
    assert Without(ps[3], cs) == "1E" by { WithoutThree(ps[3], cs); }
    assert Without(ps[4], cs) == "2" by { WithoutThree(ps[4], cs); }
  }

  lemma SpacedParamChars()
    ensures ParamChars(Spaced) == "R1 E1E2"
    ensures FixedParamChars(Spaced) == "R1E1E2"
  {
    ParamCharsAtOnce(Spaced);
    SpacedAsWritten();
    SpacedFixed();
  }

  /** A parallel R and CPE written with a space after the comma, as the
      repository's own test writes its circuit: the space is kept as a
      parameter character, the pairs shift, and the CPE exponent `E2` is
      left unbounded above. */
  lemma SpaceShiftsPairs()
    ensures UpperBounds(ParamChars("p(R_1, E_1/E_2)")) == [Infinity, Infinity, Infinity]
  {
    SpacedParamChars();
  }

  /** With spaces ignored, the same circuit bounds its third parameter, the CPE exponent, by 1. */
  lemma FixedBoundsExponent()
    ensures UpperBounds(FixedParamChars("p(R_1, E_1/E_2)")) == [Infinity, Infinity, One]
  {
    SpacedParamChars();
  }
}
