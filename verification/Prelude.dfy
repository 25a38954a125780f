/** Values shared by the models: optional results, JavaScript strings and their ordering. */
module Prelude {

  datatype Option<+T> = None | Some(value: T) {
    function GetOr(default: T): T {
      match this
      case Some(v) => v
      case None => default
    }
  }

  datatype Result<+T, +E> = Ok(value: T) | Err(error: E)

  /** A JavaScript string as the values of its UTF-16 code units. */
  type JsString = seq<int>

  function Min(a: int, b: int): int { if a <= b then a else b }

  function Max(a: int, b: int): int { if a >= b then a else b }

  /** The JavaScript `<=` on strings: lexicographic on code units. */
  predicate LexLe(a: JsString, b: JsString) {
    a == [] || (b != [] && (a[0] < b[0] || (a[0] == b[0] && LexLe(a[1..], b[1..]))))
  }

  /** The strings agree up to unit `k` and differ there. */
  predicate DifferFirstAt(a: JsString, b: JsString, k: nat) {
    k < |a| && k < |b| && a[k] != b[k] && forall i :: 0 <= i < k ==> a[i] == b[i]
  }

  /** One string sorts no later than another exactly when it is a prefix, or has the smaller first differing unit. */
  lemma {:induction false} LexLeExactly(a: JsString, b: JsString)
    ensures LexLe(a, b) <==> a <= b || exists k: nat :: DifferFirstAt(a, b, k) && a[k] < b[k]
  {
    if a != [] && b != [] && a[0] == b[0] {
      LexLeExactly(a[1..], b[1..]);
      forall k: nat | DifferFirstAt(a[1..], b[1..], k) ensures DifferFirstAt(a, b, k + 1) && a[k + 1] == a[1..][k] && b[k + 1] == b[1..][k] {
        assert forall i :: 0 < i < k + 1 ==> a[i] == a[1..][i - 1] && b[i] == b[1..][i - 1];
      }
      forall k: nat | DifferFirstAt(a, b, k) ensures k > 0 && DifferFirstAt(a[1..], b[1..], k - 1) {}
      assert a <= b <==> a[1..] <= b[1..];
    } else if a != [] && b != [] {
      assert DifferFirstAt(a, b, 0);
    }
  }

  lemma {:induction false} LexLeTotal(a: JsString, b: JsString)
    ensures LexLe(a, b) || LexLe(b, a)
  {
    if a != [] && b != [] { LexLeTotal(a[1..], b[1..]); }
  }

  lemma {:induction false} LexLeAntisymmetric(a: JsString, b: JsString)
    requires LexLe(a, b) && LexLe(b, a)
    ensures a == b
  {
    if a != [] {
      LexLeAntisymmetric(a[1..], b[1..]);
      assert a == [a[0]] + a[1..] && b == [b[0]] + b[1..];
    }
  }

  lemma {:induction false} LexLeTransitive(a: JsString, b: JsString, c: JsString)
    requires LexLe(a, b) && LexLe(b, c)
    ensures LexLe(a, c)
  {
    if a != [] && a[0] == b[0] == c[0] { LexLeTransitive(a[1..], b[1..], c[1..]); }
  }
}
