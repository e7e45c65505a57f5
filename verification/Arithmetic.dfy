/** Products and quotients of variables by repeated addition and subtraction, and that they are * and /. */
module Arithmetic {

  function Product(a: nat, b: nat): nat {
    if a == 0 then 0 else Product(a - 1, b) + b
  }

  function Quotient(a: nat, b: nat): (q: nat)
    requires b > 0
    ensures q <= a
  {
    if a < b then 0 else Quotient(a - b, b) + 1
  }

  lemma {:induction false} ProductIs(a: nat, b: nat)
    ensures Product(a, b) == a * b
  {
    if a > 0 {
      ProductIs(a - 1, b);
    }
  }

  lemma {:induction false} ProductAdds(a: nat, b: nat, c: nat)
    ensures Product(a + b, c) == Product(a, c) + Product(b, c)
    decreases b
  {
    if b > 0 {
      ProductAdds(a, b - 1, c);
    }
  }

  lemma {:induction false} ProductOfSum(a: nat, b: nat, c: nat)
    ensures Product(a, b + c) == Product(a, b) + Product(a, c)
    decreases a
  {
    if a > 0 {
      ProductOfSum(a - 1, b, c);
    }
  }

  lemma {:induction false} ProductGrows(a: nat, b: nat, c: nat)
    requires a <= b
    ensures Product(a, c) <= Product(b, c)
    decreases b
  {
    if a < b {
      ProductGrows(a, b - 1, c);
    }
  }

  /** a / b is the number of times b fits into a. */
  lemma {:induction false} QuotientFits(a: nat, b: nat)
    requires b > 0
    ensures var q := Quotient(a, b); Product(q, b) <= a < Product(q, b) + b
    decreases a
  {
    if a >= b {
      QuotientFits(a - b, b);
    }
  }

  lemma {:induction false} QuotientIs(a: nat, b: nat)
    requires b > 0
    ensures Quotient(a, b) == a / b
  {
    QuotientFits(a, b);
    var q := Quotient(a, b);
    ProductIs(q, b);
    DivisionIsUnique(a, b, q);
  }

  lemma {:induction false} DivisionIsUnique(a: nat, b: nat, q: nat)
    requires b > 0 && q * b <= a < q * b + b
    ensures a / b == q
  {
    var r := a / b;
    assert r * b <= a < r * b + b;
    ProductIs(r, b);
    ProductIs(q, b);
    if r < q {
      ProductGrows(r + 1, q, b);
    } else if r > q {
      ProductGrows(q + 1, r, b);
    }
  }
}
