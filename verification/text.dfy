/** The string tests the registry applies to member and module names. */
module Text {

  /** Python's `s.startswith(p)`. */
  predicate StartsWith(s: string, p: string) {
    |p| <= |s| && s[..|p|] == p
  }

  /** Python's `s.count(".")`: how many dots a dotted module name holds. */
  function CountDots(s: string): (n: nat)
    ensures n <= |s|
    ensures n == 0 <==> '.' !in s
    decreases |s|
  {
    if |s| == 0 then 0
    else (if s[0] == '.' then 1 else 0) + CountDots(s[1..])
  }

  /** Dots are counted additively over concatenation, so a name
      `base + "." + rest` lies strictly deeper than `base`. */
  lemma {:induction false} CountDotsAppend(a: string, b: string)
    ensures CountDots(a + b) == CountDots(a) + CountDots(b)
    decreases |a|
  {
    if |a| > 0 {
      assert (a + b)[1..] == a[1..] + b;
      CountDotsAppend(a[1..], b);
    } else {
      assert a + b == b;
    }
  }

  /** A member name that starts with `_` is private and never registered. */
  predicate IsPrivate(name: string) {
    StartsWith(name, "_")
  }
}
