/** The smaller and the larger of two numbers. */
module Numbers {

  function Min(m: nat, n: nat): (r: nat)
    ensures r <= m && r <= n && (r == m || r == n)
  {
    if m < n then m else n
  }

  function Max(m: nat, n: nat): (r: nat)
    ensures r >= m && r >= n && (r == m || r == n)
  {
    if m < n then n else m
  }
}
