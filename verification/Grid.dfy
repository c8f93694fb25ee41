/** Multiples of a step: where slots of one size lie. */
module Grid {
  lemma SlotStep(elem: nat, w: nat, p: nat)
    requires elem > 0 && w % elem == 0 && p % elem == 0 && w < p
    ensures w + elem <= p
  {
    var a, b := w / elem, p / elem;
    assert w == elem * a && p == elem * b;
    if b <= a {
      MulLe(elem, b, a);
    } else {
      MulLe(elem, a + 1, b);
      assert elem * (a + 1) == elem * a + elem;
    }
  }

  lemma MulLe(e: nat, a: int, b: int)
    requires a <= b
    ensures e * a <= e * b
  {
  }

  lemma NextSlot(elem: nat, w: nat)
    requires elem > 0 && w % elem == 0
    ensures (w + elem) % elem == 0
  {
    var a, q, r := w / elem, (w + elem) / elem, (w + elem) % elem;
    assert w == elem * a && w + elem == elem * q + r;
    assert elem * (a + 1) == elem * a + elem;
    if q < a + 1 {
      MulLe(elem, q + 1, a + 1);
    } else if q > a + 1 {
      MulLe(elem, a + 2, q);
    }
  }

  /** Rounds up to a multiple of a power of two; an alignment of zero asks for nothing. */
  function AlignUp(v: nat, align: nat): (r: nat)
    ensures v <= r && (align > 0 ==> r < v + align && r % align == 0)
  {
    if align == 0 then v else if v % align == 0 then v else (UpIs(v, align); v + align - v % align)
  }

  lemma UpIs(v: nat, align: nat)
    requires align > 0
    ensures (v + align - v % align) % align == 0
  {
    var w := v - v % align;
    assert w == align * (v / align);
    FloorMod(align, v / align);
    NextSlot(align, w);
  }

  lemma FloorMod(e: nat, k: nat)
    requires e > 0
    ensures (e * k) % e == 0
    decreases k
  {
    if k > 0 {
      FloorMod(e, k - 1);
      NextSlot(e, e * (k - 1));
      assert e * (k - 1) + e == e * k;
    }
  }

  /** A multiple of a multiple is a multiple. */
  lemma ModDivides(n: nat, e: nat, d: nat)
    requires e > 0 && d > 0 && n % e == 0 && e % d == 0
    ensures n % d == 0
  {
    var a, c := n / e, e / d;
    assert n == e * a && e == d * c;
    assert n == d * (c * a) by { Assoc(d, c, a); }
    FloorMod(d, c * a);
  }

  lemma Assoc(d: nat, c: nat, a: nat)
    ensures d * c * a == d * (c * a)
  {
  }
}
