/** The turn sequence of the Heighway dragon: `complement_center` and
    `dragon_string`. In the sequence a 1 means "turn left" and a 0 means
    "turn right". */
module Dragon {
  import opened BitOps

  /** A value, or the `IndexError` Python raises when `complement_center`
      indexes into an empty list. */
  datatype Result<T> = Ok(value: T) | IndexError

  /** `(len(s) - 1) // 2`. Dafny's `/` agrees with Python's floor division
      here: it gives -1 for the empty list. */
  function Center(n: nat): (r: int)
    ensures n > 0 ==> 0 <= r < n
  {
    (n - 1) / 2
  }

  predicate IsBinary(s: seq<int>)
  {
    forall i :: 0 <= i < |s| ==> s[i] == 0 || s[i] == 1
  }

  /** `complement_center`: a copy of `s` with the middle symbol replaced by
      `1 - symbol`. On the empty list the index is -1 and Python raises. */
  function ComplementCenter(s: seq<int>): (r: Result<seq<int>>)
    ensures r.Ok? <==> |s| > 0
    ensures r.Ok? ==> |r.value| == |s| && 0 <= Center(|s|) < |s|
    ensures r.Ok? ==> r.value[Center(|s|)] == 1 - s[Center(|s|)]
  {
    if |s| == 0 then IndexError
    else
      var c := Center(|s|);
      Ok(s[c := 1 - s[c]])
  }

  /** The result differs from the input at the middle index and at no
      other index. */
  lemma ComplementCenterOnlyCenter(s: seq<int>, i: int)
    requires 0 <= i < |s|
    ensures ComplementCenter(s).value[i] == s[i] <==> i != Center(|s|)
  {
  }

  /** Flipping the middle twice gives back the original list. */
  lemma ComplementCenterInvolution(s: seq<int>)
    requires |s| > 0
    ensures ComplementCenter(ComplementCenter(s).value) == Ok(s)
  {
    var c := Center(|s|);
    var t := ComplementCenter(s).value;
    assert t[c := 1 - t[c]] == s;
  }

  /** Flipping the middle of a list of 0s and 1s leaves a list of 0s and 1s. */
  lemma ComplementCenterBinary(s: seq<int>)
    requires |s| > 0 && IsBinary(s)
    ensures IsBinary(ComplementCenter(s).value)
  {
  }

  /** One round of the loop in `dragon_string`:
      `string + [1] + complement_center(string)`. The old string is a
      prefix of the new one, followed by a 1 at index `len(string)`. */
  function Step(s: seq<int>): (r: Result<seq<int>>)
    ensures r.Ok? <==> |s| > 0
    ensures r.Ok? ==> |r.value| == 2 * |s| + 1 && r.value[..|s|] == s && r.value[|s|] == 1
  {
    match ComplementCenter(s)
    case IndexError => IndexError
    case Ok(c) => Ok(s + [1] + c)
  }

  /** The string `dragon_string` holds after `n` rounds from `seed`: an
      `IndexError` exactly when some round starts from the empty list,
      which happens only when the seed is empty and `n > 0`. */
  function DragonSeq(n: nat, seed: seq<int>): (r: Result<seq<int>>)
    ensures r.Ok? <==> n == 0 || |seed| > 0
    ensures r.Ok? ==> |r.value| >= |seed|
  {
    if n == 0 then Ok(seed)
    else
      match DragonSeq(n - 1, seed)
      case IndexError => IndexError
      case Ok(s) => Step(s)
  }

  /** `dragon_string(iterations, seed)`. A negative `iterations` makes
      `range` empty, so the seed comes back unchanged. */
  method DragonString(iterations: int, seed: seq<int>) returns (r: Result<seq<int>>)
    ensures r == DragonSeq(if iterations < 0 then 0 else iterations, seed)
    ensures r.Ok? <==> iterations <= 0 || |seed| > 0
    ensures iterations <= 0 ==> r == Ok(seed)
  {
    var s := seed;
    var k := 0;
    while k < iterations
      invariant 0 <= k && (iterations >= 0 ==> k <= iterations) && (iterations < 0 ==> k == 0)
      invariant DragonSeq(k, seed) == Ok(s)
    {
      var c := ComplementCenter(s);
      if c.IndexError? {
        return IndexError;
      }
      s := s + [1] + c.value;
      k := k + 1;
    }
    return Ok(s);
  }

  /** Each round maps a length L to 2L + 1, so after `n` rounds
      `len + 1 == (len(seed) + 1) * 2^n`. */
  lemma {:induction false} DragonLength(n: nat, seed: seq<int>)
    requires |seed| > 0
    ensures |DragonSeq(n, seed).value| + 1 == (|seed| + 1) * Pow2(n)
  {
    if n > 0 {
      DragonLength(n - 1, seed);
      DoubleProduct(|seed| + 1, Pow2(n - 1));
    }
  }

  /** From the seed [1] the string after `n` rounds has `2^(n+1) - 1`
      symbols. */
  lemma DragonLengthFromOne(n: nat)
    ensures |DragonSeq(n, [1]).value| == Pow2(n + 1) - 1
  {
    DragonLength(n, [1]);
  }

  /** One round keeps the string as a prefix, puts a 1 right after it and
      more than doubles the length. */
  lemma DragonNext(n: nat, seed: seq<int>)
    requires n > 0 && |seed| > 0
    ensures |DragonSeq(n, seed).value| == 2 * |DragonSeq(n - 1, seed).value| + 1
    ensures IsPrefix(DragonSeq(n - 1, seed).value, DragonSeq(n, seed).value)
    ensures DragonSeq(n, seed).value[|DragonSeq(n - 1, seed).value|] == 1
  {
    var s := DragonSeq(n - 1, seed).value;
    DragonSeqNext(n, seed, s);
  }

  /** `a` is an initial segment of `b`. */
  predicate IsPrefix(a: seq<int>, b: seq<int>)
  {
    |a| <= |b| && b[..|a|] == a
  }

  lemma PrefixTransitive(a: seq<int>, b: seq<int>, c: seq<int>)
    requires IsPrefix(a, b) && IsPrefix(b, c)
    ensures IsPrefix(a, c)
  {
    assert c[..|b|][..|a|] == c[..|a|];
  }

  /** Every earlier string is a prefix of every later one. */
  lemma {:induction false} DragonPrefix(m: nat, n: nat, seed: seq<int>)
    requires |seed| > 0 && m <= n
    ensures IsPrefix(DragonSeq(m, seed).value, DragonSeq(n, seed).value)
  {
    if m < n {
      DragonPrefix(m, n - 1, seed);
      var a, b, c := DragonSeq(m, seed).value, DragonSeq(n - 1, seed).value, DragonSeq(n, seed).value;
      DragonNext(n, seed);
      PrefixTransitive(a, b, c);
    }
  }

  /** A binary seed yields binary strings. */
  lemma {:induction false} DragonBinary(n: nat, seed: seq<int>)
    requires IsBinary(seed)
    ensures DragonSeq(n, seed).Ok? ==> IsBinary(DragonSeq(n, seed).value)
  {
    if n > 0 && |seed| > 0 {
      DragonBinary(n - 1, seed);
      var prev := DragonSeq(n - 1, seed).value;
      ComplementCenterBinary(prev);
      var next := DragonSeq(n, seed).value;
      assert next == prev + [1] + ComplementCenter(prev).value;
    }
  }

  /** The first three strings from the seed [1]. */
  lemma DragonFromOne()
    ensures DragonSeq(0, [1]) == Ok([1])
    ensures DragonSeq(1, [1]) == Ok([1, 1, 0])
    ensures DragonSeq(2, [1]) == Ok([1, 1, 0, 1, 1, 0, 0])
  {
    assert Center(1) == 0 && [1][0 := 1 - 1] == [0];
    assert ComplementCenter([1]) == Ok([0]);
    assert Step([1]) == Ok([1] + [1] + [0]);
    assert [1] + [1] + [0] == [1, 1, 0];
    assert DragonSeq(1, [1]) == Step([1]);
    assert Center(3) == 1 && [1, 1, 0][1 := 1 - 1] == [1, 0, 0];
    assert ComplementCenter([1, 1, 0]) == Ok([1, 0, 0]);
    assert Step([1, 1, 0]) == Ok([1, 1, 0] + [1] + [1, 0, 0]);
    assert [1, 1, 0] + [1] + [1, 0, 0] == [1, 1, 0, 1, 1, 0, 0];
    assert DragonSeq(2, [1]) == Step(DragonSeq(1, [1]).value);
  }

  /** A list read backwards with every symbol complemented. */
  function Mirror(s: seq<int>): (r: seq<int>)
    ensures |r| == |s|
  {
    if s == [] then [] else [1 - s[|s| - 1]] + Mirror(s[..|s| - 1])
  }

  /** Symbol `i` of the mirror is the complement of symbol `len - 1 - i`. */
  lemma {:induction false} MirrorAt(s: seq<int>, i: nat)
    requires i < |s|
    ensures Mirror(s)[i] == 1 - s[|s| - 1 - i]
  {
    if i > 0 {
      MirrorAt(s[..|s| - 1], i - 1);
    }
  }

  /** The textbook paper-folding recurrence for the dragon's turns: the
      next string is the current one, a 1, and the current one mirrored. */
  function Folding(n: nat): seq<int>
  {
    if n == 0 then [1] else Folding(n - 1) + [1] + Mirror(Folding(n - 1))
  }

  /** On a string of the shape `f + [1] + Mirror(f)` flipping the middle
      symbol is the same as mirroring the whole string. */
  lemma CenterFlipIsMirror(f: seq<int>)
    ensures ComplementCenter(f + [1] + Mirror(f)) == Ok(Mirror(f + [1] + Mirror(f)))
  {
    var s := f + [1] + Mirror(f);
    var n := |f|;
    assert Center(|s|) == n;
    var flipped := ComplementCenter(s).value;
    var mirrored := Mirror(s);
    forall i | 0 <= i < |s|
      ensures flipped[i] == mirrored[i]
    {
      MirrorAt(s, i);
      if i < n {
        assert s[|s| - 1 - i] == Mirror(f)[n - 1 - i];
        MirrorAt(f, n - 1 - i);
      } else if i > n {
        assert s[i] == Mirror(f)[i - n - 1];
        MirrorAt(f, i - n - 1);
      }
    }
    assert flipped == mirrored;
  }

  /** Every string of the paper-folding recurrence is its own mirror with
      the middle symbol flipped. */
  lemma FoldingCenterFlip(n: nat)
    ensures ComplementCenter(Folding(n)) == Ok(Mirror(Folding(n)))
  {
    if n == 0 {
      assert Folding(0) == [1];
      assert Center(1) == 0 && [1][0 := 1 - 1] == [0];
      assert ComplementCenter([1]) == Ok([0]);
      assert Mirror([1]) == [0];
    } else {
      CenterFlipIsMirror(Folding(n - 1));
    }
  }

  lemma DragonSeqNext(n: nat, seed: seq<int>, s: seq<int>)
    requires n > 0 && DragonSeq(n - 1, seed) == Ok(s)
    ensures DragonSeq(n, seed) == Step(s)
  {
  }

  /** A round from a string whose middle flip is its mirror appends a 1
      and that mirror. */
  lemma StepOfMirror(f: seq<int>)
    requires ComplementCenter(f) == Ok(Mirror(f))
    ensures Step(f) == Ok(f + [1] + Mirror(f))
  {
  }

  /** One round from the `n - 1`-th paper-folding string gives the `n`-th. */
  lemma FoldingRound(n: nat, seed: seq<int>)
    requires n > 0 && DragonSeq(n - 1, seed) == Ok(Folding(n - 1))
    ensures DragonSeq(n, seed) == Ok(Folding(n))
  {
    FoldingCenterFlip(n - 1);
    StepOfMirror(Folding(n - 1));
    DragonSeqNext(n, seed, Folding(n - 1));
  }

  /** The shortcut used by `dragon_string` (flip only the middle symbol)
      computes exactly the paper-folding sequence from the seed [1]. */
  lemma {:induction false} DragonIsFolding(n: nat)
    ensures DragonSeq(n, [1]) == Ok(Folding(n))
  {
    if n > 0 {
      DragonIsFolding(n - 1);
      FoldingRound(n, [1]);
    }
  }
}
