/** Square tables stored as a sequence of rows, shared by the board and the sheet. */
module Grids {
  /** An `n` by `n` table: `n` rows of `n` entries each. */
  predicate IsSquare<T>(g: seq<seq<T>>, n: nat) {
    |g| == n && forall x :: 0 <= x < n ==> |g[x]| == n
  }

  /** Two `n` by `n` tables that agree on every entry are equal. */
  lemma SquareEquality<T>(g: seq<seq<T>>, h: seq<seq<T>>, n: nat)
    requires IsSquare(g, n) && IsSquare(h, n)
    requires forall x, y :: 0 <= x < n && 0 <= y < n ==> g[x][y] == h[x][y]
    ensures g == h
  {
    forall x | 0 <= x < n ensures g[x] == h[x] {
    }
  }
}
