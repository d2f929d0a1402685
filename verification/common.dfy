/** Vocabulary shared by every component: optional (nullable) values, opaque
    Unity asset handles, and the two integer helpers the scripts rely on. */
module Common {

  /** A nullable reference: `None` stands for C#'s `null`. */
  datatype Option<+T> = None | Some(value: T)

  /** An opaque reference to a Unity asset (sprite, audio clip, ...). Only
      its identity is observable to the game logic. */
  datatype Handle = Handle(id: nat)

  /** A keyboard key, compared only for identity. */
  type Key = nat

  /** `string.IsNullOrEmpty`; a null string is modelled as the empty one. */
  predicate IsNullOrEmpty(s: string) {
    |s| == 0
  }

  /** `Mathf.Clamp(int, int, int)`. */
  function Clamp(v: int, lo: int, hi: int): (r: int)
    requires lo <= hi
    ensures lo <= r <= hi
    ensures lo <= v <= hi ==> r == v
    ensures r != v ==> (v < lo && r == lo) || (hi < v && r == hi)
  {
    if v < lo then lo else if v > hi then hi else v
  }

  /** C#'s `/` on integers, which truncates toward zero (Dafny's own `/`
      is Euclidean and rounds a negative quotient down). */
  function CsDiv(a: int, n: int): (q: int)
    requires n > 0
    ensures 0 <= a ==> 0 <= q * n <= a
    ensures a <= 0 ==> a <= q * n <= 0
    ensures 0 <= a ==> a - q * n < n
    ensures a <= 0 ==> -n < a - q * n
  {
    if a >= 0 then a / n else -((-a) / n)
  }

  /** C#'s `%`, which truncates toward zero: the remainder takes the sign of
      the dividend (Dafny's own `%` is Euclidean and never negative), and
      with `CsDiv` it satisfies C#'s identity `(a / n) * n + a % n == a`. */
  function CsRem(a: int, n: int): (r: int)
    requires n > 0
    ensures -n < r < n
    ensures 0 <= a ==> 0 <= r
    ensures a <= 0 ==> r <= 0
    ensures CsDiv(a, n) * n + r == a
  {
    if a >= 0 then a % n else -((-a) % n)
  }
}
