/** Behaviour of the Ruby core library that the model relies on. */
module Collections {

  /** `parts.join(sep)`. */
  function Join(parts: seq<string>, sep: string): (r: string)
    ensures parts == [] ==> r == []
    ensures |parts| == 1 ==> r == parts[0]
  {
    if parts == [] then []
    else if |parts| == 1 then parts[0]
    else parts[0] + sep + Join(parts[1..], sep)
  }

  /** `xs.select(&keep)`; what it keeps is stated by the two lemmas below. */
  function Select<T>(xs: seq<T>, keep: T -> bool): seq<T>
    decreases |xs|
  {
    if xs == [] then []
    else
      var rest := Select(xs[1..], keep);
      if keep(xs[0]) then [xs[0]] + rest else rest
  }

  /** The selection keeps the passing elements in their order. */
  lemma {:induction false} SelectSubsequence<T>(xs: seq<T>, keep: T -> bool)
    ensures IsSubsequence(Select(xs, keep), xs)
    decreases |xs|
  {
    if xs != [] {
      SelectSubsequence(xs[1..], keep);
      var rest := Select(xs[1..], keep);
      if keep(xs[0]) {
        assert ([xs[0]] + rest)[1..] == rest;
      }
    }
  }

  /** Each passing element as often as it occurs in `xs`; the others not at all. */
  lemma {:induction false} SelectCount<T(!new)>(xs: seq<T>, keep: T -> bool)
    ensures forall x :: multiset(Select(xs, keep))[x] == if keep(x) then multiset(xs)[x] else 0
    decreases |xs|
  {
    if xs != [] {
      SelectCount(xs[1..], keep);
      assert xs == [xs[0]] + xs[1..];
    }
  }

  /** Selecting from a sequence with one more element at the end. */
  lemma {:induction false} SelectSnoc<T>(xs: seq<T>, x: T, keep: T -> bool)
    ensures Select(xs + [x], keep) == Select(xs, keep) + if keep(x) then [x] else []
    decreases |xs|
  {
    if xs == [] {
      assert [] + [x] == [x] && [x][1..] == [];
    } else {
      var ys := xs + [x];
      assert ys != [] && ys[0] == xs[0] && ys[1..] == xs[1..] + [x];
      SelectSnoc(xs[1..], x, keep);
      ConcatAssoc([xs[0]], Select(xs[1..], keep), if keep(x) then [x] else []);
    }
  }

  /** Selecting with a test every element passes keeps the whole sequence. */
  lemma {:induction false} SelectAll<T>(xs: seq<T>, keep: T -> bool)
    requires forall x <- xs :: keep(x)
    ensures Select(xs, keep) == xs
    decreases |xs|
  {
    if xs != [] {
      assert xs[0] in xs;
      forall x <- xs[1..] ensures keep(x) {
        assert x in xs;
      }
      SelectAll(xs[1..], keep);
    }
  }

  /** `r` is `s` with some elements removed and the rest kept in order. */
  ghost predicate IsSubsequence<T>(r: seq<T>, s: seq<T>)
    decreases |s|
  {
    if r == [] then true
    else if s == [] then false
    else (r[0] == s[0] && IsSubsequence(r[1..], s[1..])) || IsSubsequence(r, s[1..])
  }

  lemma {:induction false} SubsequenceRefl<T>(s: seq<T>)
    ensures IsSubsequence(s, s)
    decreases |s|
  {
    if s != [] {
      SubsequenceRefl(s[1..]);
    }
  }

  lemma {:induction false} SubsequenceTrans<T>(r: seq<T>, s: seq<T>, t: seq<T>)
    requires IsSubsequence(r, s) && IsSubsequence(s, t)
    ensures IsSubsequence(r, t)
    decreases |t|
  {
    if r == [] {
    } else if s == [] {
    } else if t == [] {
    } else if s[0] == t[0] && IsSubsequence(s[1..], t[1..]) {
      if r[0] == s[0] && IsSubsequence(r[1..], s[1..]) {
        SubsequenceTrans(r[1..], s[1..], t[1..]);
      } else {
        SubsequenceTrans(r, s[1..], t[1..]);
        SubsequenceDropFirst(r, s[1..], t);
      }
    } else {
      SubsequenceTrans(r, s, t[1..]);
    }
  }

  /** Skipping one more element of the longer sequence keeps the relation. */
  lemma {:induction false} SubsequenceDropFirst<T>(r: seq<T>, s: seq<T>, t: seq<T>)
    requires t != [] && IsSubsequence(r, t[1..])
    ensures IsSubsequence(r, t)
  {
  }

  /** Every element of a subsequence comes from the sequence. */
  lemma {:induction false} SubsequenceMembers<T>(r: seq<T>, s: seq<T>, x: T)
    requires IsSubsequence(r, s) && x in r
    ensures x in s
    decreases |s|
  {
    if r[0] == s[0] && IsSubsequence(r[1..], s[1..]) {
      if x != r[0] {
        SubsequenceMembers(r[1..], s[1..], x);
      }
    } else {
      SubsequenceMembers(r, s[1..], x);
    }
  }

  /** A non-empty sequence is its front followed by its last element, also behind a prefix. */
  lemma SplitLast<T>(xs: seq<T>, ys: seq<T>)
    requires ys != []
    ensures ys == ys[..|ys| - 1] + [ys[|ys| - 1]]
    ensures xs + ys == (xs + ys[..|ys| - 1]) + [ys[|ys| - 1]]
  {
    assert ys == ys[..|ys| - 1] + [ys[|ys| - 1]];
  }

  /** A non-empty sequence is its first element followed by the rest. */
  lemma SplitFirst<T>(xs: seq<T>)
    requires xs != []
    ensures xs == [xs[0]] + xs[1..]
    ensures multiset(xs) == multiset([xs[0]]) + multiset(xs[1..])
  {
    assert xs == [xs[0]] + xs[1..];
  }

  /** A prefix one longer is the shorter prefix and one more element. */
  lemma PrefixSnoc<T>(s: seq<T>, i: nat)
    requires i < |s|
    ensures s[..i + 1] == s[..i] + [s[i]]
  {
  }

  lemma ConcatThree<T>(a: T, b: T, c: T)
    ensures [a] + [b] + [c] == [a, b, c]
  {
  }

  lemma ConcatEmpty<T>(x: seq<T>)
    ensures [] + x == x && x + [] == x
  {
  }

  lemma ConcatAssoc<T>(x: seq<T>, y: seq<T>, z: seq<T>)
    ensures (x + y) + z == x + (y + z)
  {
  }
}
