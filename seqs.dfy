/** Small facts about sequences that the loops over lines and names use. */
module Seqs {

  /** Concatenation is associative; stated once so that long texts need not
      be compared character by character. */
  lemma AppendAssoc<T>(a: seq<T>, b: seq<T>, c: seq<T>)
    ensures a + b + c == a + (b + c)
  {
  }

  /** The prefix one element longer is the prefix with that element added. */
  lemma PrefixSnoc<T>(s: seq<T>, i: nat)
    requires i < |s|
    ensures s[..i + 1] == s[..i] + [s[i]]
  {
  }

  /** The strings `f` gives the elements of `xs`, glued together in order. */
  function ConcatMap<T>(xs: seq<T>, f: T -> string): string {
    if xs == [] then [] else f(xs[0]) + ConcatMap(xs[1..], f)
  }

  lemma {:induction false} ConcatMapAppend<T>(xs: seq<T>, ys: seq<T>, f: T -> string)
    ensures ConcatMap(xs + ys, f) == ConcatMap(xs, f) + ConcatMap(ys, f)
    decreases |xs|
  {
    if xs != [] {
      assert (xs + ys)[1..] == xs[1..] + ys;
      ConcatMapAppend(xs[1..], ys, f);
    } else {
      assert xs + ys == ys;
    }
  }

  /** Gluing one more element adds its string at the end. */
  lemma ConcatMapSnoc<T>(xs: seq<T>, i: nat, f: T -> string)
    requires i < |xs|
    ensures ConcatMap(xs[..i + 1], f) == ConcatMap(xs[..i], f) + f(xs[i])
  {
    PrefixSnoc(xs, i);
    ConcatMapAppend(xs[..i], [xs[i]], f);
    assert ConcatMap([xs[i]], f) == f(xs[i]) + ConcatMap([], f);
  }

  /** The string of the `k`-th element sits between those of the elements
      before and after it. */
  lemma ConcatMapAt<T>(xs: seq<T>, k: nat, f: T -> string)
    requires k < |xs|
    ensures ConcatMap(xs, f) == ConcatMap(xs[..k], f) + f(xs[k]) + ConcatMap(xs[k + 1..], f)
  {
    assert xs == xs[..k] + xs[k..];
    ConcatMapAppend(xs[..k], xs[k..], f);
    assert xs[k..][1..] == xs[k + 1..];
  }
}
