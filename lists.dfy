/** The three parallel lists the scheduler fills, and how one set of lists
    continues another. */
module Lists {
  /** The three parallel lists the scheduler returns. */
  datatype Series = Series(time: seq<int>, battery: seq<real>, temperature: seq<real>)

  function Last<T>(s: seq<T>): T
    requires |s| > 0
  {
    s[|s| - 1]
  }

  /** The three lists are equally long and hold at least the first sample. */
  predicate Aligned(s: Series)
  {
    |s.time| >= 1 && |s.battery| == |s.time| && |s.temperature| == |s.time|
  }

  /** `b` continues `a`: each of its lists starts with the matching list of `a`. */
  predicate Extends(a: Series, b: Series)
  {
    a.time <= b.time && a.battery <= b.battery && a.temperature <= b.temperature
  }

  lemma PrefixTransitive<T>(a: seq<T>, b: seq<T>, c: seq<T>)
    requires a <= b && b <= c
    ensures a <= c
  {
    assert a == b[..|a|];
    assert b == c[..|b|];
  }

  lemma ExtendsTransitive(a: Series, b: Series, c: Series)
    requires Extends(a, b) && Extends(b, c)
    ensures Extends(a, c)
  {
    PrefixTransitive(a.time, b.time, c.time);
    PrefixTransitive(a.battery, b.battery, c.battery);
    PrefixTransitive(a.temperature, b.temperature, c.temperature);
  }

  /** Sample `i` of the battery and temperature lists repeats sample `i - 1`. */
  predicate CopiesAt(s: Series, i: int)
    requires Aligned(s)
  {
    1 <= i < |s.time| && s.battery[i] == s.battery[i - 1] && s.temperature[i] == s.temperature[i - 1]
  }

  lemma ExtendsCopies(a: Series, b: Series, i: int)
    requires Aligned(a) && Aligned(b) && Extends(a, b) && CopiesAt(a, i)
    ensures CopiesAt(b, i)
  {
  }
}
