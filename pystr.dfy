/** The Python string and list builtins that the circuit compiler relies on,
    stated over `seq<char>`: `str.replace(c, '')` and list-comprehension
    filtering, `str.split(sep)`, `str.strip(chars)`, `str.count(c)`, and the
    clipping slices `xs[0:n]` and `xs[n:]`, which never fail. */
module PyStr {

  /** Number of occurrences of `c` in `s` (`s.count(c)` for a one-character `c`). */
  function Count(s: string, c: char): (n: nat)
    ensures n <= |s|
    ensures n == 0 <==> c !in s
  {
    if s == [] then 0
    else (if s[0] == c then 1 else 0) + Count(s[1..], c)
  }

  /** `s` with every character of `cs` removed, the others kept in order. */
  function Without(s: string, cs: set<char>): (r: string)
    ensures |r| <= |s|
  {
    if s == [] then []
    else if s[0] in cs then Without(s[1..], cs)
    else [s[0]] + Without(s[1..], cs)
  }

  /** No character of `cs` survives the removal. */
  lemma {:induction false} WithoutExcludes(s: string, cs: set<char>)
    ensures forall c :: c in Without(s, cs) ==> c !in cs
  {
    if s != [] {
      WithoutExcludes(s[1..], cs);
    }
  }

  /** A string without characters of `cs` is left as it is. */
  lemma {:induction false} WithoutNothing(s: string, cs: set<char>)
    requires forall c :: c in cs ==> c !in s
    ensures Without(s, cs) == s
  {
    if s != [] {
      assert s[0] in s;
      assert forall c :: c in s[1..] ==> c in s;
      WithoutNothing(s[1..], cs);
      assert s == [s[0]] + s[1..];
    }
  }

  /** Removing one set of characters and then another is removing their union. */
  lemma {:induction false} WithoutWithout(s: string, a: set<char>, b: set<char>)
    ensures Without(Without(s, a), b) == Without(s, a + b)
  {
    if s != [] {
      WithoutWithout(s[1..], a, b);
      if s[0] !in a {
        assert Without(s, a) == [s[0]] + Without(s[1..], a);
        assert ([s[0]] + Without(s[1..], a))[1..] == Without(s[1..], a);
      }
    }
  }

  /** Removal looks at one character at a time. */
  lemma WithoutCons(c: char, t: string, cs: set<char>)
    ensures Without([c] + t, cs) == (if c in cs then [] else [c]) + Without(t, cs)
  {
    assert ([c] + t)[1..] == t;
  }

  /** Removal distributes over concatenation. */
  lemma {:induction false} WithoutAppend(s: string, t: string, cs: set<char>)
    ensures Without(s + t, cs) == Without(s, cs) + Without(t, cs)
  {
    if s == [] {
      assert s + t == t;
    } else {
      var keep: string := if s[0] in cs then [] else [s[0]];
      assert s + t == [s[0]] + (s[1..] + t);
      assert s == [s[0]] + s[1..];
      WithoutCons(s[0], s[1..] + t, cs);
      WithoutCons(s[0], s[1..], cs);
      WithoutAppend(s[1..], t, cs);
      assert keep + (Without(s[1..], cs) + Without(t, cs)) == (keep + Without(s[1..], cs)) + Without(t, cs);
    }
  }

  /** Removing a character found between two pieces that are already free of it. */
  lemma WithoutDropsOne(a: string, c: char, b: string, cs: set<char>)
    requires c in cs && Without(a, cs) == a && Without(b, cs) == b
    ensures Without(a + [c] + b, cs) == a + b
  {
    WithoutAppend(a + [c], b, cs);
    WithoutAppend(a, [c], cs);
    assert Without([c], cs) == [];
    assert a + [] == a;
  }

  /** The pieces of `xs` glued back together with `sep` between neighbours
      (`sep.join(xs)`); the partner of `Split`. */
  function Join(xs: seq<string>, sep: char): string
  {
    if |xs| == 0 then []
    else if |xs| == 1 then xs[0]
    else xs[0] + [sep] + Join(xs[1..], sep)
  }

  /** A join starts with its first piece. */
  lemma JoinHead(xs: seq<string>, sep: char)
    requires |xs| >= 1
    ensures xs[0] <= Join(xs, sep)
  {
  }

  /** `s.split(sep)` for a one-character separator: always at least one
      piece, no piece holds `sep`, and joining the pieces gives `s` back. */
  function Split(s: string, sep: char): (r: seq<string>)
    ensures |r| >= 1
    ensures Join(r, sep) == s
    ensures forall i :: 0 <= i < |r| ==> sep !in r[i]
  {
    if s == [] then [[]]
    else
      var rest := Split(s[1..], sep);
      assert s == [s[0]] + s[1..];
      if s[0] == sep then
        assert ([[]] + rest)[1..] == rest;
        [[]] + rest
      else
        JoinCons(s[0], rest, sep);
        assert forall i :: 1 <= i < |rest| ==> ([[s[0]] + rest[0]] + rest[1..])[i] == rest[i];
        [[s[0]] + rest[0]] + rest[1..]
  }

  /** Putting a character in front of the first piece puts it in front of the join. */
  lemma JoinCons(c: char, xs: seq<string>, sep: char)
    requires |xs| >= 1
    ensures Join([[c] + xs[0]] + xs[1..], sep) == [c] + Join(xs, sep)
  {
    var ys := [[c] + xs[0]] + xs[1..];
    assert ys[1..] == xs[1..];
    if |xs| > 1 {
      assert Join(ys, sep) == ([c] + xs[0]) + [sep] + Join(xs[1..], sep);
      assert Join(xs, sep) == xs[0] + [sep] + Join(xs[1..], sep);
    }
  }

  /** `s.split(sep)` has exactly one piece more than `s` has separators. */
  lemma {:induction false} SplitCount(s: string, sep: char)
    ensures |Split(s, sep)| == Count(s, sep) + 1
  {
    if s != [] {
      SplitCount(s[1..], sep);
    }
  }

  /** A string without the separator is one piece. */
  lemma SplitNone(s: string, sep: char)
    requires sep !in s
    ensures Split(s, sep) == [s]
  {
    SplitCount(s, sep);
    assert Join(Split(s, sep), sep) == Split(s, sep)[0];
  }

  /** Prepending a separator-free word `w` extends the first piece. */
  lemma {:induction false} SplitPrefix(w: string, t: string, sep: char)
    requires sep !in w
    ensures Split(w + t, sep) == [w + Split(t, sep)[0]] + Split(t, sep)[1..]
  {
    if w != [] {
      assert (w + t)[1..] == w[1..] + t;
      SplitPrefix(w[1..], t, sep);
      var rest := Split(w[1..] + t, sep);
      assert rest[0] == w[1..] + Split(t, sep)[0];
      assert rest[1..] == Split(t, sep)[1..];
      assert w[0] != sep && (w + t)[0] == w[0];
      assert Split(w + t, sep) == [[w[0]] + rest[0]] + rest[1..];
      assert w == [w[0]] + w[1..];
      assert [w[0]] + rest[0] == w + Split(t, sep)[0];
    } else {
      assert w + t == t;
      assert w + Split(t, sep)[0] == Split(t, sep)[0];
      assert Split(t, sep) == [Split(t, sep)[0]] + Split(t, sep)[1..];
    }
  }

  /** A leading separator closes an empty first piece. */
  lemma SplitAtSep(t: string, sep: char)
    ensures Split([sep] + t, sep) == [[]] + Split(t, sep)
  {
    assert ([sep] + t)[1..] == t;
  }

  /** A separator-free word, a separator, then the rest: the word is the first piece. */
  lemma SplitAfterWord(w: string, t: string, sep: char)
    requires sep !in w
    ensures Split(w + ([sep] + t), sep) == [w] + Split(t, sep)
  {
    SplitAtSep(t, sep);
    var u := Split([sep] + t, sep);
    assert u[0] == [] && u[1..] == Split(t, sep);
    SplitPrefix(w, [sep] + t, sep);
    assert w + [] == w;
  }

  /** Splitting undoes joining: the pieces of a string are unique. */
  lemma {:induction false} SplitJoin(xs: seq<string>, sep: char)
    requires |xs| >= 1
    requires forall i :: 0 <= i < |xs| ==> sep !in xs[i]
    ensures Split(Join(xs, sep), sep) == xs
  {
    if |xs| == 1 {
      SplitPrefix(xs[0], [], sep);
      assert xs[0] + [] == xs[0];
    } else {
      var t := Join(xs[1..], sep);
      SplitJoin(xs[1..], sep);
      SplitAfterWord(xs[0], t, sep);
      assert Join(xs, sep) == xs[0] + ([sep] + t);
      assert xs == [xs[0]] + xs[1..];
    }
  }

  /** Length of the longest prefix of `s` made of characters of `cs`. */
  function LeadingRun(s: string, cs: set<char>): (n: nat)
    ensures n <= |s|
    ensures forall k :: 0 <= k < n ==> s[k] in cs
    ensures n < |s| ==> s[n] !in cs
  {
    if s != [] && s[0] in cs then
      var n := LeadingRun(s[1..], cs);
      assert forall k :: 1 <= k < n + 1 ==> s[k] == s[1..][k - 1];
      1 + n
    else 0
  }

  /** Length of the longest suffix of `s` made of characters of `cs`. */
  function TrailingRun(s: string, cs: set<char>): (n: nat)
    ensures n <= |s|
    ensures forall k :: |s| - n <= k < |s| ==> s[k] in cs
    ensures n < |s| ==> s[|s| - n - 1] !in cs
  {
    if s != [] && s[|s| - 1] in cs then 1 + TrailingRun(s[..|s| - 1], cs) else 0
  }

  /** `s.lstrip(cs)`: `s` without its leading run of `cs` characters. */
  function LStrip(s: string, cs: set<char>): string
  {
    s[LeadingRun(s, cs)..]
  }

  /** `s.rstrip(cs)`: `s` without its trailing run of `cs` characters. */
  function RStrip(s: string, cs: set<char>): string
  {
    s[..|s| - TrailingRun(s, cs)]
  }

  /** `s.strip(cs)`: `s` without its leading and trailing characters of `cs`. */
  function Strip(s: string, cs: set<char>): (r: string)
    ensures |r| <= |s|
    ensures r != [] ==> r[0] !in cs && r[|r| - 1] !in cs
  {
    RStrip(LStrip(s, cs), cs)
  }

  /** `s[i..j]` is what is left after removing a run of `cs` characters at
      each end, and it neither starts nor ends with one. */
  predicate StrippedAt(s: string, cs: set<char>, i: int, j: int)
  {
    && 0 <= i <= j <= |s|
    && (forall k :: 0 <= k < i ==> s[k] in cs)
    && (forall k :: j <= k < |s| ==> s[k] in cs)
    && (i < j ==> s[i] !in cs && s[j - 1] !in cs)
  }

  /** `Strip` removes exactly a run of `cs` characters at each end and no more. */
  lemma StripSpec(s: string, cs: set<char>)
    ensures exists i, j :: StrippedAt(s, cs, i, j) && Strip(s, cs) == s[i..j]
  {
    var i := LeadingRun(s, cs);
    var l := s[i..];
    var t := TrailingRun(l, cs);
    var j := |s| - t;
    assert Strip(s, cs) == l[..|l| - t] == s[i..j];
    forall k | j <= k < |s| ensures s[k] in cs {
      assert s[k] == l[k - i];
    }
    if i < j {
      assert s[j - 1] == l[|l| - t - 1];
    }
    assert StrippedAt(s, cs, i, j);
  }

  /** A run of `cs` characters followed by a character outside `cs` is the leading run. */
  lemma {:induction false} LeadingRunOf(pre: string, s: string, cs: set<char>)
    requires forall c :: c in pre ==> c in cs
    requires s != [] && s[0] !in cs
    ensures LeadingRun(pre + s, cs) == |pre|
  {
    if pre == [] {
      assert pre + s == s;
    } else {
      assert pre[0] in pre;
      assert (pre + s)[1..] == pre[1..] + s;
      LeadingRunOf(pre[1..], s, cs);
    }
  }

  /** A run of `cs` characters preceded by a character outside `cs` is the trailing run. */
  lemma {:induction false} TrailingRunOf(s: string, post: string, cs: set<char>)
    requires forall c :: c in post ==> c in cs
    requires s != [] && s[|s| - 1] !in cs
    ensures TrailingRun(s + post, cs) == |post|
  {
    if post == [] {
      assert s + post == s;
    } else {
      var n := |post| - 1;
      assert post[n] in post;
      assert (s + post)[..|s + post| - 1] == s + post[..n];
      assert forall c :: c in post[..n] ==> c in post;
      TrailingRunOf(s, post[..n], cs);
    }
  }

  /** Stripping a string that is a run of `cs` characters, a core that
      neither starts nor ends with one, and another run, leaves the core. */
  lemma StripAround(pre: string, core: string, post: string, cs: set<char>)
    requires forall c :: c in pre ==> c in cs
    requires forall c :: c in post ==> c in cs
    requires core != [] && core[0] !in cs && core[|core| - 1] !in cs
    ensures Strip(pre + core + post, cs) == core
  {
    assert pre + core + post == pre + (core + post);
    LeadingRunOf(pre, core + post, cs);
    assert LStrip(pre + core + post, cs) == core + post;
    TrailingRunOf(core, post, cs);
    assert (core + post)[..|core|] == core;
  }

  /** `xs[0:n]`: the first `n` elements, or all of them when there are fewer. */
  function Take<T>(xs: seq<T>, n: nat): seq<T>
  {
    if n <= |xs| then xs[..n] else xs
  }

  /** `xs[n:]`: what follows the first `n` elements, or nothing when there are fewer. */
  function Drop<T>(xs: seq<T>, n: nat): seq<T>
  {
    if n <= |xs| then xs[n..] else []
  }

  /** A cut keeps `n` elements in front, or all of them when there are fewer. */
  lemma TakeLength<T>(xs: seq<T>, n: nat)
    ensures |Take(xs, n)| == if n <= |xs| then n else |xs|
    ensures |Drop(xs, n)| == |xs| - |Take(xs, n)|
  {
  }

  /** The two halves of a cut put back together give the whole sequence. */
  lemma TakeDrop<T>(xs: seq<T>, n: nat)
    ensures Take(xs, n) + Drop(xs, n) == xs
  {
    if n <= |xs| {
      assert xs[..n] + xs[n..] == xs;
    }
  }

  /** Dropping twice is dropping the sum. */
  lemma DropDrop<T>(xs: seq<T>, a: nat, b: nat)
    ensures Drop(Drop(xs, a), b) == Drop(xs, a + b)
  {
  }

  /** Taking `a` then `b` more from what is left is taking `a + b`. */
  lemma TakeThenTake<T>(xs: seq<T>, a: nat, b: nat)
    ensures Take(xs, a) + Take(Drop(xs, a), b) == Take(xs, a + b)
  {
  }
}
