/** Regions of memory, layouts and alignment, shared by the two heap allocators. */
module HeapTypes {
  import opened Arithmetic

  datatype Region = Region(start: nat, size: nat) {
    function End(): nat {
      start + size
    }
  }

  datatype Layout = Layout(size: nat, align: nat)

  ghost predicate Apart(r: Region, q: Region) {
    r.End() <= q.start || q.End() <= r.start
  }

  function Without<T>(s: seq<T>, i: nat): seq<T>
    requires i < |s|
  {
    s[..i] + s[i + 1..]
  }

  predicate IsPow2(n: nat) {
    n == 1 || (n > 0 && n % 2 == 0 && IsPow2(n / 2))
  }

  predicate ValidLayout(l: Layout) {
    IsPow2(l.align)
  }

  function AlignUp(n: nat, align: nat): (r: nat)
    requires align > 0
  {
    (n + align - 1) / align * align
  }

  lemma AlignUpLeast(n: nat, align: nat)
    requires align > 0
    ensures n <= AlignUp(n, align) < n + align && AlignUp(n, align) % align == 0
    ensures n % align == 0 ==> AlignUp(n, align) == n
  {
    var m := n + align - 1;
    assert m == m / align * align + m % align;
    ModOfMultiple(m / align, align);
    if n % align == 0 {
      assert n == n / align * align;
      DivModUnique(m, align, n / align, align - 1);
    }
  }

  /** Rounding up gives the least multiple, and nothing else is one. */
  lemma AlignUpIff(n: nat, align: nat, m: nat)
    requires align > 0
    ensures m == AlignUp(n, align) <==> m % align == 0 && n <= m < n + align
  {
    AlignUpLeast(n, align);
    if m % align == 0 && n <= m < n + align {
      assert m + align - 1 < n + align + (align - 1);
      DivModUnique(n + align - 1, align, m / align, n + align - 1 - m);
    }
  }

  lemma ModOfMultiple(q: nat, d: nat)
    requires d > 0
    ensures q * d % d == 0
  {
    DivModUnique(q * d, d, q, 0);
  }

  lemma {:induction false} Pow2Multiple(a: nat)
    requires IsPow2(a) && a >= 8
    ensures a % 8 == 0
  {
    assert IsPow2(a / 2) && IsPow2(a / 2 / 2);
    if a >= 16 {
      Pow2Multiple(a / 2);
    } else {
      assert a / 2 / 2 != 3;
    }
  }

  lemma MultipleOfMultiple(n: nat, a: nat)
    requires a > 0 && a % 8 == 0 && n % a == 0
    ensures n % 8 == 0
  {
    assert n == n / a * a && a == a / 8 * 8;
    assert n == (n / a * (a / 8)) * 8 by {
      assert n / a * (a / 8 * 8) == (n / a * (a / 8)) * 8;
    }
    ModOfMultiple(n / a * (a / 8), 8);
  }

  lemma SumMultiple(a: nat, b: nat)
    requires a % 8 == 0 && b % 8 == 0
    ensures (a + b) % 8 == 0
  {
  }
}
