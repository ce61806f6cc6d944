/** Dictionary order of strings. */
module TextOrder {

  /** Character by character, a prefix first. */
  predicate TextLeq(a: string, b: string) {
    a == "" || (b != "" && (a[0] < b[0] || (a[0] == b[0] && TextLeq(a[1..], b[1..]))))
  }

  lemma {:induction false} TextLeqTotal(a: string, b: string)
    ensures TextLeq(a, b) || TextLeq(b, a)
    ensures TextLeq(a, b) && TextLeq(b, a) ==> a == b
  {
    if a != "" && b != "" && a[0] == b[0] {
      TextLeqTotal(a[1..], b[1..]);
      assert a == [a[0]] + a[1..] && b == [b[0]] + b[1..];
    }
  }

  lemma {:induction false} TextLeqTransitive(a: string, b: string, c: string)
    requires TextLeq(a, b) && TextLeq(b, c)
    ensures TextLeq(a, c)
  {
    if a != "" && a[0] == b[0] && b[0] == c[0] {
      TextLeqTransitive(a[1..], b[1..], c[1..]);
    }
  }

  /** The first character in which two texts differ decides, and a text comes before what continues it. */
  lemma {:induction false} FirstDifferenceDecides(p: string, c: char, a: string, d: char, b: string)
    requires c < d
    ensures TextLeq(p + ([c] + a), p + ([d] + b)) && !TextLeq(p + ([d] + b), p + ([c] + a))
    ensures TextLeq(p, p + a)
  {
    if p == "" {
      assert p + ([c] + a) == [c] + a && p + ([d] + b) == [d] + b;
    } else {
      FirstDifferenceDecides(p[1..], c, a, d, b);
      assert (p + ([c] + a))[1..] == p[1..] + ([c] + a) && (p + ([d] + b))[1..] == p[1..] + ([d] + b);
      assert (p + a)[1..] == p[1..] + a;
    }
  }
}
