# impedance.py circuit strings, in Dafny

This project models the circuit-string handling of `impedance/fitting.py`, the
fitting module of impedance.py (equivalent-circuit fitting of electrochemical
impedance spectra). A circuit is written as a string such as
`R_0-p(R_1, E_1/E_2)-W_1/W_2`: `-` separates series terms, `p(...)` wraps a
parallel group of `,`-separated branches, and an element token such as
`E_1/E_2` names one element whose arity (number of fitted parameters) is the
number of `/`-separated pieces. Three pieces of the module work on such strings:

- `buildCircuit` turns the string, the frequencies and a flat parameter list
  into an expression `s([...])` over element constructors, handing each element
  the next `arity` parameters. It is modelled as the imperative method
  `Circuit.BuildCircuit`, with its inner branch loop `Circuit.BuildParallel`.
  Both are proved to compute the specification function `Circuit.Build`, which
  returns the expression as a datatype (`Series` of `Leaf`/`Par` nodes over
  `Element(kind, params, freqs)`). Parameters and frequencies are opaque
  type parameters.
- The default bounds of `circuit_fit` are modelled as the method
  `Bounds.DefaultBounds` over the loop `Bounds.BoundsFromChars`. Upper bounds
  are the datatype `Upper = One | Infinity`.
- `calculateCircuitLength` is modelled as the method
  `CircuitLength.CalculateCircuitLength`.

The Python string operations the code relies on are written out in module
`PyStr`, each with its own properties. These are `str.replace(c, '')` and
the list comprehension over excluded characters (`Without`), `str.split`
(`Split`/`Join`), `str.strip` (`Strip`), `str.count` (`Count`), and clipping
list slices (`Take`/`Drop`). Module `CircuitProps` proves what `buildCircuit`
promises about `Build`. Module `CircuitExample` works the repository's own
test circuit through the model.

The model follows the code in these details:

- `buildCircuit` raises no error when the parameter count differs from the
  total arity. Python slicing clips: missing parameters leave later elements
  with short or empty lists, and surplus ones are ignored. `CircuitProps.BuildParams`
  and `CircuitProps.BuildIgnoresSurplus` state this.
- `buildCircuit` removes spaces only, not underscores. `circuit_fit` removes
  underscores before it calls the solver.
- The default bounds remove underscores only, not spaces. See Findings.
- An empty term or branch makes the source fail on `elem[0]` / `par[0]`. That
  is a precondition here (`Circuit.WellFormed`), not an error value.

## Model

| member | source | states |
|---|---|---|
| Circuit.BuildCircuit | impedance/fitting.py:147-186 | The term loop yields exactly `Build(circuit, frequencies, parameters)`. Its invariant is that the series built so far, followed by the remaining shapes bound to the shrinking `parameters` list, is the whole bound circuit. |
| Circuit.BuildParallel | impedance/fitting.py:156-170 | For a `p` term, the branch loop yields the group node `Build` gives that term. The list left afterwards is `parameters` with the group's total arity dropped. |
| Circuit.Build | impedance/fitting.py:131-186 | What `buildCircuit` returns, as a datatype: a series with one entry per `-`-separated term of the space-free circuit. |
| Circuit.Terms | impedance/fitting.py:151-154 | The terms of `circuit.replace(' ', '').split('-')`: at least one, none holding `-`, and joined by `-` they give back the circuit without spaces. |
| Circuit.Branches | impedance/fitting.py:158 | The branches of `term.strip('p()').split(',')`: at least one, none holding `,`, and joined by `,` they give back the stripped term. |
| Circuit.ParseToken | impedance/fitting.py:160-174 | A token's slot has the token's first character as its type code and an arity of at least 1. |
| Circuit.TermOk | impedance/fitting.py:156-173 | A term the source can read without an `IndexError` at `par[0]` (line 160) or `elem[0]` (line 173): it is non-empty, and so is each branch of a group. A readable group has something left once `p`, `(` and `)` are stripped. |
| Circuit.WellFormed | impedance/fitting.py:151-173 | Every term of the space-free circuit is readable. An empty or all-space circuit is therefore not well-formed, because its one term is empty. `CircuitProps.ParseSpec` states what a well-formed circuit parses to. |
| Circuit.ParseTerm | impedance/fitting.py:156-174 | `if "p" in elem`: the shape is a group exactly when the term holds `p`, and a group has one slot per branch. `CircuitProps.ParseSpec` states each slot's type code and arity. |
| Circuit.Parse | impedance/fitting.py:151-154 | One shape per `-`-separated term, in order. `CircuitProps.ParseSpec` states what each shape is. |
| Circuit.BindSlots | impedance/fitting.py:158-164 | The branch loop's shrinking `parameters` list gives one element per slot. `CircuitProps.BindSlotsAt` and `CircuitProps.BindSlotsParams` state which values each one takes. |
| Circuit.BindShapes | impedance/fitting.py:154-177 | The term loop's shrinking `parameters` list gives one node per shape. `CircuitProps.BindShapesAt` and `CircuitProps.BindShapesFlat` state which values each one takes. |
| CircuitProps.ParseSpec | impedance/fitting.py:151-174 | The terms, joined by `-`, give back the circuit without spaces. There is one shape per term. A term is a group exactly when it holds `p`. A plain term is read as its first character with arity `count('/') + 1`. A group term has one slot per branch, each read the same way. |
| CircuitProps.TokenSlot | impedance/fitting.py:160-174 | A token's slot has its first character as type code. Its arity is one more than the number of `/` in it, so it is always at least 1. |
| CircuitProps.BuildStructure | impedance/fitting.py:154-184 | The built circuit has one series entry per term. An entry is parallel exactly when its term holds `p`, with one branch per listed branch. Every element is typed by its token's first character and gets the same, unchanged frequencies. |
| CircuitProps.BindShapesAt | impedance/fitting.py:163-177 | Series entry `i` is shape `i` bound to the parameters left after the total arity of the shapes before it is dropped. |
| CircuitProps.BindSlotsAt | impedance/fitting.py:163-164 | Branch `k` of a group takes `arity` values, starting after the arity of the branches before it, clipped to what is left. |
| CircuitProps.BindShapesAppend | impedance/fitting.py:154-182 | Binding two runs of terms one after another: the second run starts where the first stopped. |
| CircuitProps.BindSlotsAppend | impedance/fitting.py:158-168 | The same for two runs of branches. |
| CircuitProps.BindShapesFlat | impedance/fitting.py:154-182 | The elements of the built circuit, in traversal order, are the flattened slots bound in one left-to-right pass. Terms come first, then branches in listed order. |
| CircuitProps.BindSlotsParams | impedance/fitting.py:163-177 | The concatenated parameter lists of bound slots are `params[0:arity]`, clipped. |
| CircuitProps.TotalAritySlots | impedance/fitting.py:161-174 | The total arity of the shapes is the arity of their flattened slots. |
| CircuitProps.BuildParams | impedance/fitting.py:163-177 | All per-element parameter lists, concatenated in traversal order, equal `parameters[0 : min(len(parameters), total arity)]`. |
| CircuitProps.BuildElementAt | impedance/fitting.py:160-177 | Element `k` in traversal order has slot `k`'s type code and the frequencies. It takes the `arity` values after those of the elements before it, clipped. With at least the total arity of parameters, it takes exactly `params[start : start + arity]`. |
| CircuitProps.BindSlotsExact | impedance/fitting.py:163-164 | When there are enough parameters, slot `k` gets exactly `arity` values, right after those of the slots before it. |
| CircuitProps.BuildIgnoresSurplus | impedance/fitting.py:163-177 | With at least the total arity of parameters, appending more values leaves the built circuit unchanged, and no error is raised. |
| CircuitProps.BuildIgnoresSpaces | impedance/fitting.py:150-151 | Removing spaces first changes neither the terms, nor well-formedness, nor the built circuit. |
| CircuitExample.ExampleTerms | impedance/tests/test_fitting.py:22 | The test circuit `R_0-p(R_1, E_1/E_2)-W_1/W_2` has the three terms `R_0`, `p(R_1,E_1/E_2)` and `W_1/W_2`. |
| CircuitExample.ExampleBranches | impedance/tests/test_fitting.py:22 | The group term strips to `R_1,E_1/E_2` and has the branches `R_1` and `E_1/E_2`. |
| CircuitExample.PlainToken | impedance/fitting.py:160-174 | A token without `/` is read as one element of arity 1. |
| CircuitExample.PairToken | impedance/fitting.py:160-174 | A token of two `/`-free words around one `/` is read as one element of arity 2. |
| CircuitExample.ExampleParse | impedance/tests/test_fitting.py:22 | The test circuit is well-formed and parses to `R` (arity 1), a group of `R` (1) and `E` (2), then `W` (2). |
| CircuitExample.BuildExample | impedance/tests/test_fitting.py:20-30 | With six parameters the test circuit builds `R[p1]`, then `Par(R[p2], E[p3, p4])`, then `W[p5, p6]`, each element with the frequencies. This is the structure the test's expected string spells. |
| Bounds.BoundsFromChars | impedance/fitting.py:70-79 | The pair loop gives one lower bound `0` and one upper bound per pair of consecutive characters, `floor(n/2)` of each. The upper bounds are `UpperBounds(p_string)`. |
| Bounds.DefaultBounds | impedance/fitting.py:64-79 | As written: `floor(n/2)` bounds, where `n` counts the characters left after removing `_` and `ps(),-/`. Every lower bound is 0, and the upper bounds are read from those characters. |
| Bounds.ParamChars | impedance/fitting.py:64-71 | `p_string` is no longer than the circuit, and none of its characters is `_` or one of `ps(),-/`. |
| Bounds.UpperBounds | impedance/fitting.py:72-77 | The upper-bound list has `floor(n/2)` entries for `n` filtered characters. |
| Bounds.PairBound | impedance/fitting.py:74-77 | A pair's upper bound is 1 exactly when the pair spells `E2`, and infinity otherwise. |
| Bounds.UpperBoundIsOne | impedance/fitting.py:72-77 | Upper bound `i` is 1 exactly when filtered characters `2i` and `2i+1` are `E` and `2`, and infinity otherwise. |
| Bounds.PairsAreConsecutive | impedance/fitting.py:72 | `zip(p_string[::2], p_string[1::2])` has `floor(n/2)` entries. Entry `i` is characters `2i` and `2i+1`, so an odd last character is dropped. |
| Bounds.UpperBoundsAt | impedance/fitting.py:72-77 | Upper bound `i` is the bound of the pair at characters `2i` and `2i+1`. |
| Bounds.Evens | impedance/fitting.py:72 | `s[::2]` has `ceil(n/2)` characters, and character `i` is `s[2i]`. |
| Bounds.Odds | impedance/fitting.py:72 | `s[1::2]` has `floor(n/2)` characters, and character `i` is `s[2i+1]`. |
| Bounds.Zip | impedance/fitting.py:72 | `zip` is as long as the shorter input, and entry `i` pairs the two `i`-th characters. |
| Bounds.PairIsE2 | impedance/fitting.py:74 | `str(a+b) == "E2"` holds exactly when `a` is `E` and `b` is `2`. |
| Bounds.ParamCharsAtOnce | impedance/fitting.py:64-71 | Removing `_`, then `ps(),-/`, is one removal of both sets. |
| Bounds.SpacedParamChars | impedance/fitting.py:64-71 | As written, `p(R_1, E_1/E_2)` leaves `R1 E1E2`. With spaces removed too, it leaves `R1E1E2`. |
| Bounds.SpaceShiftsPairs | impedance/fitting.py:64-77 | As written, `p(R_1, E_1/E_2)` gets the upper bounds `[inf, inf, inf]`: the kept space shifts the pairs. |
| Bounds.FixedDefaultBounds | impedance/fitting.py:64-79 | Corrected: the same bounds, computed with spaces removed as well. |
| Bounds.FixedParamChars | impedance/fitting.py:64-71 | Corrected: the parameter characters are the as-written `p_string` with its spaces removed. |
| Bounds.FixedBoundsExponent | impedance/fitting.py:64-77 | Corrected: `p(R_1, E_1/E_2)` gets `[inf, inf, 1]`, so the CPE exponent is bounded by 1. |
| Bounds.FixedIgnoresSpaces | impedance/fitting.py:64-71 | Corrected: removing spaces beforehand changes nothing. |
| Bounds.FixedAgreesWithoutSpaces | impedance/fitting.py:64-71 | On a string without spaces, the corrected and as-written characters agree. |
| CircuitLength.CalculateCircuitLength | impedance/fitting.py:189-194 | The loop over `R, E, W, C, A, G` that adds `circuit.count(char)` returns the number of characters of the circuit in that set, which is at most its length. |
| CircuitLength.CountIn | impedance/fitting.py:193 | The count is at most the length. It is 0 exactly when no character is in the set. |
| CircuitLength.CountInAdd | impedance/fitting.py:192-193 | Counting one more, distinct character adds its `str.count`. |
| CircuitLength.CodesDistinct | impedance/fitting.py:190 | The six codes are distinct, so each round counts new characters. |
| CircuitLength.CountInAppend | impedance/fitting.py:193 | The count of a concatenation is the sum of the counts. |
| CircuitLength.CountInWithout | impedance/fitting.py:193 | The count plus the length of the string with those characters removed is the length. |
| CircuitLength.OtherCharsIgnored | impedance/fitting.py:189-194 | Removing characters outside the set anywhere leaves the count unchanged. |
| CircuitLength.LengthIgnoresStructure | impedance/fitting.py:189-194 | Underscores, spaces and `ps(),-/` never change the circuit length. |
| PyStr.Count | impedance/fitting.py:193 | `str.count(c)` is at most the length, and 0 exactly when `c` does not occur. |
| PyStr.Split | impedance/fitting.py:154-174 | `str.split(sep)` gives at least one piece. The pieces, joined by `sep`, give back the string, and none contains `sep`. |
| PyStr.SplitJoin | impedance/fitting.py:154-174 | Splitting a join of `sep`-free pieces gives back the pieces. |
| PyStr.SplitCount | impedance/fitting.py:161-174 | `len(s.split(sep))` is the number of `sep` plus one. |
| PyStr.SplitNone | impedance/fitting.py:161-174 | A string without the separator splits into itself alone. |
| PyStr.SplitPrefix | impedance/fitting.py:154-158 | A `sep`-free prefix joins the first piece. |
| PyStr.SplitAfterWord | impedance/fitting.py:154-158 | A `sep`-free word followed by `sep` is the first piece. |
| PyStr.StripSpec | impedance/fitting.py:158 | `str.strip(chars)` is the slice between the longest run of `chars` at the front and the longest at the back. |
| PyStr.StripAround | impedance/fitting.py:158 | Stripping `p(` and `)` off a core that neither starts nor ends with those characters gives the core. |
| PyStr.Strip | impedance/fitting.py:158 | The stripped string is no longer than the input, and it neither starts nor ends with a stripped character. |
| PyStr.LeadingRun | impedance/fitting.py:158 | The leading run of `chars` is maximal. |
| PyStr.TrailingRun | impedance/fitting.py:158 | The trailing run of `chars` is maximal. |
| PyStr.Without | impedance/fitting.py:64-151 | Removing characters never lengthens the string. |
| PyStr.WithoutExcludes | impedance/fitting.py:64-151 | No removed character is left. |
| PyStr.WithoutNothing | impedance/fitting.py:64-151 | A string without any of the characters is unchanged. |
| PyStr.WithoutWithout | impedance/fitting.py:64-71 | Two removals in a row are one removal of both sets. |
| PyStr.WithoutAppend | impedance/fitting.py:64-151 | Removal works piece by piece over a concatenation. |
| PyStr.WithoutDropsOne | impedance/fitting.py:151 | Removing the single space between two space-free pieces joins them. |
| PyStr.DropDrop | impedance/fitting.py:164-177 | `parameters[a:][b:]` is `parameters[a+b:]`. |
| PyStr.TakeThenTake | impedance/fitting.py:163-177 | `params[0:a]` followed by `params[a:][0:b]` is `params[0:a+b]`, clipped. |
| PyStr.TakeLength | impedance/fitting.py:163-177 | `xs[0:n]` has `n` elements, or all of them when there are fewer. `xs[n:]` has the rest. |
| PyStr.TakeDrop | impedance/fitting.py:163-177 | `xs[0:n] + xs[n:]` is `xs`. |

## Left out

- `rmse` (impedance/fitting.py:6-19): a floating-point norm and square root.
- The `curve_fit` call, its options, and `perror = sqrt(diag(pcov))` (impedance/fitting.py:81-87): an external least-squares solver and floating-point numerics.
- `wrapCircuit` and `computeCircuit` (impedance/fitting.py:90-128): they `eval` the generated expression and stack real and imaginary parts. The model stops at the expression, as a datatype.
- The element formulas `R, C, W, A, E, G, s, p` (impedance/fitting.py:1): `circuit_elements.py` is not part of this model. Element type codes are plain characters. An unknown code would fail only when the expression is evaluated, which is outside the model.
- The text of `buildCircuit`'s result: `str()` of lists and floats, the `s([` / `p((` wrappers, and the `strip(",")` of trailing commas. The model keeps the structure those strings spell, not their characters. The next line gives the one case where the two differ.
- Circuit.Build: a group with one branch, such as `p(R1)`, is kept as `Par([e])`. The source writes `p((R([..],[..])))` for it, and Python reads `((x))` as plain `x`, so `p` is given the bare element rather than a one-element tuple. What `p` then does is part of `circuit_elements.py`, which is not part of this model.
- `np.array(...).tolist()` conversions (impedance/fitting.py:147-148): parameters and frequencies are opaque sequences.
- The unused `bootstrap` flag and the `method` argument of `circuit_fit`. Caller-supplied `bounds` are passed through untouched.
- Nested parallel groups: they appear only in commented-out tests (impedance/tests/test_fitting.py:32-42). The code cannot build them, and the model reads them the same way. The circuit is split on `-` before any `p(...)` is looked at, so `R_0-p(p(R_1, C_1)-p(R_2, C_2)-R_3, C_3)` becomes the terms `R_0`, `p(p(R_1,C_1)`, `p(R_2,C_2)` and `R_3,C_3)`. The last of these has no `p`, so it is read as a single `R` slot of arity 1.
- The default upper bound `np.inf` is the datatype value `Infinity`, not a float.

## Findings

| source | as written | input that shows it | evidently intended | confidence | as-written member | corrected member |
|---|---|---|---|---|---|---|
| impedance/fitting.py:64-71 | The default bounds remove only `_` and `ps(),-/`. A space stays in `p_string` and shifts the pairing of every later character, while `buildCircuit` removes spaces (line 151). | `p(R_1, E_1/E_2)`: `p_string` is `R1 E1E2`, the pairs are `R1`, ` E`, `1E`, and all three upper bounds are infinity. The repository's own test circuit is written with this space. | Spaces ignored, as in `buildCircuit`: the pairs are `R1`, `E1`, `E2`, and the CPE exponent (third parameter) is bounded by 1. | high; not executed | Bounds.SpaceShiftsPairs | Bounds.FixedBoundsExponent |
