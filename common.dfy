/** Small helpers shared by every feature module. */
module Common {

  /** A nullable value: `None` stands for C#'s `null`. */
  datatype Option<+T> = None | Some(value: T) {
    function GetOr(default: T): T {
      match this
      case Some(v) => v
      case None => default
    }
  }

  /** C#'s `string.IsNullOrEmpty`. */
  predicate IsNullOrEmpty(s: Option<string>) {
    s == None || s == Some("")
  }

  /**
   * C#'s `%` on `int`: the remainder of division truncated toward zero, so it
   * takes the sign of the dividend (Dafny's own `%` never returns a negative).
   */
  function TruncRem(a: int, b: int): (r: int)
    requires b != 0
    ensures a >= 0 ==> 0 <= r < Abs(b)
    ensures a < 0 ==> r <= 0 && -r < Abs(b)
    ensures a >= 0 ==> r == a % Abs(b)
  {
    if a >= 0 then a % Abs(b) else -((-a) % Abs(b))
  }

  /** Regrouping a concatenation, for proofs that extend logs step by step. */
  lemma AppendAssoc<T>(a: seq<T>, b: seq<T>, c: seq<T>)
    ensures a + b + c == a + (b + c)
  {
  }

  /** The tail of `s` from `lo` splits around position `i`. */
  lemma SplitAround<T>(s: seq<T>, lo: nat, i: nat)
    requires lo <= i < |s|
    ensures s[lo..] == s[lo..i] + [s[i]] + s[i + 1..]
  {
    assert s[lo..] == s[lo..i] + s[i..];
  }

  function Abs(x: int): (r: nat)
    ensures r == x || r == -x
  {
    if x < 0 then -x else x
  }
}
