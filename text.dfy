/// Character search over strings, used by the parser's `take_until!` and by
/// the line reader that states the markdown layout.
module Text {

  /** The position of the first `c` in `s`, or `|s|` when `s` has none. */
  function IndexOf(c: char, s: string): (i: nat)
    ensures i <= |s|
    ensures i < |s| ==> s[i] == c
  {
    if s == [] then 0
    else if s[0] == c then 0
    else IndexOf(c, s[1..]) + 1
  }

  /** `s` holds no `c`: the search runs off its end. */
  predicate Lacks(c: char, s: string) {
    IndexOf(c, s) == |s|
  }

  /** Nothing before the position `IndexOf` reports is a `c`. */
  lemma {:induction false} IndexOfFirst(c: char, s: string)
    ensures forall k :: 0 <= k < IndexOf(c, s) ==> s[k] != c
  {
    if s != [] && s[0] != c {
      IndexOfFirst(c, s[1..]);
    }
  }

  /** `Lacks` is plain non-membership. */
  lemma LacksIsNotIn(c: char, s: string)
    ensures Lacks(c, s) <==> c !in s
  {
    IndexOfFirst(c, s);
    if IndexOf(c, s) < |s| {
      assert s[IndexOf(c, s)] == c;
    }
  }

  /** The text before the first `c` holds no `c`. */
  lemma {:induction false} PrefixLacks(c: char, s: string)
    ensures Lacks(c, s[..IndexOf(c, s)])
  {
    if s != [] && s[0] != c {
      PrefixLacks(c, s[1..]);
      var i := IndexOf(c, s[1..]);
      assert s[..i + 1][1..] == s[1..][..i];
    }
  }

  /** The direction of `LacksIsNotIn` that examples use. */
  lemma NotInLacks(c: char, s: string)
    requires c !in s
    ensures Lacks(c, s)
  {
    LacksIsNotIn(c, s);
  }

  /** Searching past a prefix free of `c` shifts the position by its length. */
  lemma {:induction false} IndexOfAfter(c: char, a: string, b: string)
    requires Lacks(c, a)
    ensures IndexOf(c, a + b) == |a| + IndexOf(c, b)
  {
    if a == [] {
      assert a + b == b;
    } else {
      assert (a + b)[0] == a[0] && (a + b)[1..] == a[1..] + b;
      IndexOfAfter(c, a[1..], b);
    }
  }

  /** Two pieces free of `c` make a whole free of `c`. */
  lemma {:induction false} LacksAppend(c: char, a: string, b: string)
    requires Lacks(c, a) && Lacks(c, b)
    ensures Lacks(c, a + b)
  {
    IndexOfAfter(c, a, b);
  }

  /** The lines of `s`: the pieces between line breaks, without them;
      text after the last line break is a last line of its own. */
  function Lines(s: string): seq<string>
    decreases |s|
  {
    if s == [] then []
    else
      var i := IndexOf('\n', s);
      if i == |s| then [s] else [s[..i]] + Lines(s[i + 1..])
  }

  /** A line free of line breaks, then a line break, then more text. */
  lemma LinesCons(a: string, x: string)
    requires Lacks('\n', a)
    ensures Lines((a + "\n") + x) == [a] + Lines(x)
  {
    var s := (a + "\n") + x;
    IndexOfAfter('\n', a, "\n" + x);
    assert s == a + ("\n" + x);
    assert s[..|a|] == a;
    assert s[|a| + 1..] == x;
  }
}
