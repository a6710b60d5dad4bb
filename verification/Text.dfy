/** The few string operations the modelled code relies on. */
module Text {

  /** Every non-overlapping occurrence of `what`, leftmost first, becomes `with`. */
  function Replace(s: string, what: string, with: string): string
    requires what != []
    decreases |s|
  {
    if |s| < |what| then s
    else if s[..|what|] == what then with + Replace(s[|what|..], what, with)
    else [s[0]] + Replace(s[1..], what, with)
  }

  predicate OccursAt(s: string, what: string, i: nat) {
    i + |what| <= |s| && s[i..i + |what|] == what
  }

  ghost predicate Contains(s: string, what: string) {
    exists i: nat :: OccursAt(s, what, i)
  }

  /** The parts of s between occurrences of c; always at least one part. */
  function Split(s: string, c: char): (parts: seq<string>)
    ensures parts != []
  {
    if s == [] then [[]] else AddFirst(s[0], Split(s[1..], c), c)
  }

  function AddFirst(x: char, parts: seq<string>, c: char): (r: seq<string>)
    requires parts != []
    ensures r != []
  {
    if x == c then [[]] + parts else [[x] + parts[0]] + parts[1..]
  }

  lemma AddFirstConcat(x: char, p: seq<string>, q: seq<string>, c: char)
    requires p != []
    ensures AddFirst(x, p + q, c) == AddFirst(x, p, c) + q
  {
  }

  lemma {:induction false} SplitJoin(a: string, b: string, c: char)
    ensures Split(a + [c] + b, c) == Split(a, c) + Split(b, c)
  {
    if a == [] {
      assert a + [c] + b == [c] + b;
    } else {
      assert (a + [c] + b)[1..] == a[1..] + [c] + b;
      SplitJoin(a[1..], b, c);
      AddFirstConcat(a[0], Split(a[1..], c), Split(b, c), c);
    }
  }

  lemma {:induction false} SplitNone(a: string, c: char)
    requires c !in a
    ensures Split(a, c) == [a]
  {
    if a != [] {
      SplitNone(a[1..], c);
      assert [a[0]] + a[1..] == a;
    }
  }

  lemma {:induction false} ReplaceAbsent(s: string, what: string, with: string)
    requires what != [] && !Contains(s, what)
    ensures Replace(s, what, with) == s
  {
    if |s| >= |what| {
      assert !OccursAt(s, what, 0);
      forall i: nat ensures !OccursAt(s[1..], what, i) {
        assert !OccursAt(s, what, i + 1);
        if i + |what| <= |s[1..]| { assert s[1..][i..i + |what|] == s[i + 1..i + 1 + |what|]; }
      }
      ReplaceAbsent(s[1..], what, with);
    }
  }
}
