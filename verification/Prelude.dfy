/** Small vocabulary shared by the modules of the model. */
module Prelude {

  datatype Option<+T> = None | Some(value: T)

  /** An octet. */
  type byte = x: int | 0 <= x < 256

  function Min(a: nat, b: nat): nat { if a < b then a else b }

  function Max(a: nat, b: nat): nat { if a < b then b else a }

  /** isspace in the "C" locale. */
  predicate IsSpace(c: char) {
    c == ' ' || c == '\t' || c == '\n' || c == '\r' || c as int == 11 || c as int == 12
  }

  /** tolower in the "C" locale. */
  function ToLower(c: char): char {
    if 'A' <= c <= 'Z' then (c as int + 32) as char else c
  }

  /** toupper in the "C" locale. */
  function ToUpper(c: char): char {
    if 'a' <= c <= 'z' then (c as int - 32) as char else c
  }

  predicate SameNoCase(s: string, t: string) {
    |s| == |t| && forall i :: 0 <= i < |s| ==> ToLower(s[i]) == ToLower(t[i])
  }

  lemma Letters(i: nat)
    requires i < 26
    ensures var lower, upper := (97 + i) as char, (65 + i) as char;
            ToUpper(lower) == upper == ToUpper(upper) && ToLower(upper) == lower == ToLower(lower)
  {
  }

  /** ... and other characters stay as they are. */
  lemma NoLetter(c: char)
    requires !('a' <= c <= 'z') && !('A' <= c <= 'Z')
    ensures ToUpper(c) == c == ToLower(c)
  {
  }

  function Concat<T>(parts: seq<seq<T>>): seq<T> {
    if parts == [] then [] else parts[0] + Concat(parts[1..])
  }

  /** xs is ys with some elements left out. */
  ghost predicate Subsequence<T>(xs: seq<T>, ys: seq<T>) {
    if xs == [] then true
    else if ys == [] then false
    else
      var m, n := |xs| - 1, |ys| - 1;
      Subsequence(xs, ys[..n]) || (xs[m] == ys[n] && Subsequence(xs[..m], ys[..n]))
  }

  lemma SubsequenceGrows<T>(xs: seq<T>, ys: seq<T>, y: T)
    requires Subsequence(xs, ys)
    ensures Subsequence(xs, ys + [y]) && Subsequence(xs + [y], ys + [y])
  {
  }

  /** Leaving out one more element. */
  lemma {:induction false} SubsequenceDrops<T>(xs: seq<T>, ys: seq<T>, i: nat)
    requires Subsequence(xs, ys) && i < |xs|
    ensures Subsequence(xs[..i] + xs[i + 1..], ys)
    decreases |ys|
  {
    var m, n := |xs| - 1, |ys| - 1;
    var rest := xs[..i] + xs[i + 1..];
    if Subsequence(xs, ys[..n]) {
      SubsequenceDrops(xs, ys[..n], i);
      SubsequenceGrows(rest, ys[..n], ys[n]);
    } else if i == m {
      assert rest == xs[..m];
      SubsequenceGrows(rest, ys[..n], ys[n]);
    } else {
      SubsequenceDrops(xs[..m], ys[..n], i);
      assert xs[..m][..i] + xs[..m][i + 1..] == rest[..m - 1];
      SubsequenceGrows(rest[..m - 1], ys[..n], ys[n]);
      assert rest == rest[..m - 1] + [ys[n]];
    }
    assert ys == ys[..n] + [ys[n]];
  }

  lemma {:induction false} SubsequencePrefix<T>(xs: seq<T>, n: nat, ys: seq<T>)
    requires n <= |xs| && Subsequence(xs, ys)
    ensures Subsequence(xs[..n], ys)
    decreases |xs|
  {
    if n == |xs| {
      assert xs[..n] == xs;
    } else {
      var m := |xs| - 1;
      SubsequenceDrops(xs, ys, m);
      assert xs[..m] + xs[m + 1..] == xs[..m];
      SubsequencePrefix(xs[..m], n, ys);
      assert xs[..m][..n] == xs[..n];
    }
  }
}
