/** String helpers shared by the models: first index of a character, splitting on
    a character, dropping empty pieces. */
module Text {

  datatype Option<+T> = None | Some(value: T)

  /** Index of the first `c` in `s`, or `|s|` when there is none (`find` with npos read as the end). */
  function IndexOf(s: string, c: char): (i: nat)
    ensures i <= |s| && c !in s[..i]
    ensures i < |s| ==> s[i] == c
  {
    if s == "" || s[0] == c then 0 else 1 + IndexOf(s[1..], c)
  }

  lemma {:induction false} IndexOfAt(s: string, c: char, i: nat)
    requires i <= |s| && c !in s[..i]
    requires i < |s| ==> s[i] == c
    ensures IndexOf(s, c) == i
  {
  }

  /** The part of a request target before the query. */
  function StripQuery(target: string): string {
    target[..IndexOf(target, '?')]
  }

  /** The pieces of `s` between occurrences of `c`, empty pieces included. */
  function Split(s: string, c: char): (pieces: seq<string>)
    ensures pieces != []
    ensures forall k :: 0 <= k < |pieces| ==> c !in pieces[k]
    decreases |s|
  {
    var i := IndexOf(s, c);
    if i == |s| then assert s[..i] == s; [s] else [s[..i]] + Split(s[i + 1..], c)
  }

  lemma {:induction false} SplitWhole(s: string, c: char)
    requires c !in s
    ensures Split(s, c) == [s]
  {
  }

  /** Splitting distributes over a delimiter. */
  lemma {:induction false} SplitConcat(a: string, b: string, c: char)
    ensures Split(a + [c] + b, c) == Split(a, c) + Split(b, c)
    decreases |a|
  {
    var s := a + [c] + b;
    var i := IndexOf(a, c);
    if i == |a| {
      assert a[..i] == a;
      IndexOfAt(s, c, i) by { assert s[..i] == a; }
      assert s[..i] == a && s[i + 1..] == b;
    } else {
      IndexOfAt(s, c, i) by { assert s[..i] == a[..i]; }
      assert s[..i] == a[..i];
      assert s[i + 1..] == a[i + 1..] + [c] + b;
      SplitConcat(a[i + 1..], b, c);
      assert [a[..i]] + (Split(a[i + 1..], c) + Split(b, c)) == Split(a, c) + Split(b, c);
    }
  }

  /** The non-empty members of a list of strings, in order. */
  function NonEmpty(xs: seq<string>): (r: seq<string>) {
    if xs == [] then []
    else if xs[0] == "" then NonEmpty(xs[1..])
    else [xs[0]] + NonEmpty(xs[1..])
  }

  lemma {:induction false} NonEmptyConcat(xs: seq<string>, ys: seq<string>)
    ensures NonEmpty(xs + ys) == NonEmpty(xs) + NonEmpty(ys)
  {
    if xs == [] {
      assert xs + ys == ys;
    } else {
      assert (xs + ys)[0] == xs[0] && (xs + ys)[1..] == xs[1..] + ys;
      NonEmptyConcat(xs[1..], ys);
    }
  }

}
