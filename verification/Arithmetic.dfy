/** Multiplication and division facts, kept apart so that no other proof meets a product of variables. */
module Arithmetic {
  lemma {:induction false} MulNext(n: nat, next: nat, size: nat)
    requires next == n + 1
    ensures next * size == n * size + size
  {
  }

  lemma {:induction false} DivUnique(n: nat, size: nat, q: nat, r: nat)
    requires size > 0 && r < size && n == q * size + r
    ensures n / size == q && n % size == r
  {
    var q' := n / size;
    assert n == q' * size + n % size;
    if q' > q {
      MulNext(q, q + 1, size);
    } else if q' < q {
      MulNext(q', q' + 1, size);
    }
  }
}
