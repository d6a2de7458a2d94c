/** Modular arithmetic on a ring of positions: the key circle [0, range) and the
    cycle of server indices [0, n). */
module Circle {

  lemma MulAtLeast(k: int, n: int)
    requires k >= 1 && n >= 0
    ensures k * n >= n
  {
  }

  /** Euclidean division has one answer. */
  lemma ModUnique(y: int, n: int, q: int, r: int)
    requires 0 <= r < n && y == q * n + r
    ensures y % n == r
  {
    var q' := y / n;
    var difference := q - q';
    assert y == q' * n + y % n;
    assert difference * n == q * n - q' * n;
    if difference >= 1 {
      MulAtLeast(difference, n);
    } else if difference <= -1 {
      MulAtLeast(-difference, n);
    }
  }

  /** How far one walks upwards from `a` to reach `b`. */
  function Distance(a: int, b: int, range: int): (d: int)
    requires 0 <= a < range && 0 <= b < range
    ensures d == if a <= b then b - a else b - a + range
    ensures 0 <= d < range
  {
    ModUnique(b - a + range, range, if a <= b then 1 else 0, if a <= b then b - a else b - a + range);
    (b - a + range) % range
  }

  /** The j-th predecessor of server i among n servers. */
  function Predecessor(i: int, j: int, n: int): (t: int)
    requires 0 <= i < n && 0 <= j < n
    ensures t == if j <= i then i - j else i - j + n
    ensures 0 <= t < n
  {
    Distance(j, i, n)
  }

  /** Two consecutive walks make one walk, up to a full turn. */
  lemma DistanceAdds(a: int, b: int, c: int, range: int)
    requires 0 <= a < range && 0 <= b < range && 0 <= c < range
    ensures var walked := Distance(a, b, range) + Distance(b, c, range);
            walked == Distance(a, c, range) || walked == Distance(a, c, range) + range
  {
  }

  function Next(i: int, n: int): (t: int)
    requires 0 <= i < n
    ensures t == if i + 1 < n then i + 1 else 0
  {
    ModUnique(i + 1, n, if i + 1 < n then 0 else 1, if i + 1 < n then i + 1 else 0);
    (i + 1) % n
  }
}
