/** Vocabulary shared by the models. */
module Prelude {

  datatype Option<+T> = None | Some(value: T)

  type Byte = b: int | 0 <= b < 256

  /** `traits_type::int_type`: a character or eof. */
  type IntType = c: int | -1 <= c < 256

  const EOF: IntType := -1

  function NotEof(c: IntType): IntType { if c == EOF then 0 else c }

  function Min(a: int, b: int): int { if a < b then a else b }
  function Max(a: int, b: int): int { if a < b then b else a }

  /** A finite set that can be numbered injectively below `n` has at most `n` elements. */
  lemma {:induction false} InjectionBound<T>(n: nat, f: map<T, nat>)
    requires forall x :: x in f ==> f[x] < n
    requires forall x, y :: x in f && y in f && x != y ==> f[x] != f[y]
    ensures |f| <= n
  {
    if n == 0 {
      assert forall x :: x !in f;
      assert f == map[];
    } else if exists x :: x in f && f[x] == n - 1 {
      var x :| x in f && f[x] == n - 1;
      var g := f - {x};
      assert f == g[x := n - 1];
      InjectionBound(n - 1, g);
    } else {
      InjectionBound(n - 1, f);
    }
  }
}
