/**
 Multiplication in GF(2^8) as crypto/tiny_aes.c does it, and why InvMixColumns undoes
 MixColumns: mixing twice is the map P below, P is its own inverse, and unmixing is P
 followed by mixing.  Exclusive or is kept as a named function so that the steps are
 equational.
 */
module AesField {
  function Xor(a: bv8, b: bv8): bv8 {
    a ^ b
  }

  function XTime(x: bv8): bv8 {
    (x << 1) ^ (((x >> 7) & 1) * 0x1b)
  }

  function Multiply(x: bv8, y: bv8): bv8 {
    ((y & 1) * x) ^ (((y >> 1) & 1) * XTime(x)) ^ (((y >> 2) & 1) * XTime(XTime(x)))
    ^ (((y >> 3) & 1) * XTime(XTime(XTime(x)))) ^ (((y >> 4) & 1) * XTime(XTime(XTime(XTime(x)))))
  }

  function Sum(a: bv8, b: bv8, c: bv8, d: bv8): bv8 {
    Xor(Xor(a, b), Xor(c, d))
  }

  // One output byte of MixColumns, the column rotated so that the byte's own entry comes first.
  function Mixed(a: bv8, b: bv8, c: bv8, d: bv8): bv8 {
    Xor(a, Xor(XTime(Xor(a, b)), Sum(a, b, c, d)))
  }

  // One output byte of InvMixColumns, for the column rotated likewise.
  function Unmixed(p: bv8, q: bv8, r: bv8, s: bv8): bv8 {
    Sum(Multiply(p, 0x0e), Multiply(q, 0x0b), Multiply(r, 0x0d), Multiply(s, 0x09))
  }

  function Four(x: bv8): bv8 {
    XTime(XTime(x))
  }

  // ---- Group laws ----

  lemma Commute(a: bv8, b: bv8)
    ensures Xor(a, b) == Xor(b, a)
  {
  }

  lemma Assoc(a: bv8, b: bv8, c: bv8)
    ensures Xor(Xor(a, b), c) == Xor(a, Xor(b, c))
  {
  }

  lemma CancelMiddle(a: bv8, b: bv8, c: bv8)
    ensures Xor(Xor(a, b), Xor(b, c)) == Xor(a, c)
  {
  }

  lemma CancelLast(a: bv8, f: bv8)
    ensures Xor(Xor(a, f), f) == a
  {
  }

  lemma Swap(a: bv8, b: bv8, c: bv8, d: bv8)
    ensures Xor(Xor(a, b), Xor(c, d)) == Xor(Xor(a, c), Xor(b, d))
  {
    hide Xor;
    Assoc(a, b, Xor(c, d));
    Assoc(b, c, d);
    Commute(b, c);
    Assoc(c, b, d);
    Assoc(a, c, Xor(b, d));
  }

  lemma CancelCommon(u: bv8, v: bv8, t: bv8)
    ensures Xor(Xor(u, t), Xor(v, t)) == Xor(u, v)
  {
    hide Xor;
    Commute(v, t);
    CancelMiddle(u, t, v);
  }

  lemma Linear(a: bv8, b: bv8)
    ensures XTime(Xor(a, b)) == Xor(XTime(a), XTime(b))
  {
  }

  // ---- Mixing twice ----

  lemma AdjacentMixed(a: bv8, b: bv8, c: bv8, d: bv8)
    ensures Xor(Mixed(a, b, c, d), Mixed(b, c, d, a)) == Xor(Xor(a, b), XTime(Xor(a, c)))
  {
    var t, u, v := Sum(a, b, c, d), XTime(Xor(a, b)), XTime(Xor(b, c));
    assert Mixed(a, b, c, d) == Xor(a, Xor(u, t));
    assert Mixed(b, c, d, a) == Xor(b, Xor(v, t)) by { Rotated(a, b, c, d); }
    hide *;
    calc {
      Xor(Mixed(a, b, c, d), Mixed(b, c, d, a));
      Xor(Xor(a, Xor(u, t)), Xor(b, Xor(v, t)));
      { Swap(a, Xor(u, t), b, Xor(v, t)); }
      Xor(Xor(a, b), Xor(Xor(u, t), Xor(v, t)));
      { CancelCommon(u, v, t); }
      Xor(Xor(a, b), Xor(u, v));
      { Linear(Xor(a, b), Xor(b, c)); CancelMiddle(a, b, c); }
      Xor(Xor(a, b), XTime(Xor(a, c)));
    }
  }

  lemma Rotated(a: bv8, b: bv8, c: bv8, d: bv8)
    ensures Sum(b, c, d, a) == Sum(a, b, c, d)
  {
    hide Xor;
    Commute(d, a);
    Swap(b, c, a, d);
    Commute(b, a);
  }

  lemma SumOfMixed(a: bv8, b: bv8, c: bv8, d: bv8)
    ensures Sum(Mixed(a, b, c, d), Mixed(b, c, d, a), Mixed(c, d, a, b), Mixed(d, a, b, c)) == Sum(a, b, c, d)
  {
    hide XTime, Mixed, Xor;
    AdjacentMixed(a, b, c, d);
    AdjacentMixed(c, d, a, b);
    Commute(c, a);
    CancelCommon(Xor(a, b), Xor(c, d), XTime(Xor(a, c)));
  }

  // Two rounds of MixColumns add four times the opposite sum.
  lemma MixedTwice(a: bv8, b: bv8, c: bv8, d: bv8)
    ensures Mixed(Mixed(a, b, c, d), Mixed(b, c, d, a), Mixed(c, d, a, b), Mixed(d, a, b, c))
         == Xor(a, Four(Xor(a, c)))
  {
    var p, q, r, s := Mixed(a, b, c, d), Mixed(b, c, d, a), Mixed(c, d, a, b), Mixed(d, a, b, c);
    var t, w, f := Sum(a, b, c, d), XTime(Xor(a, b)), Four(Xor(a, c));
    assert p == Xor(a, Xor(w, t));
    assert Mixed(p, q, r, s) == Xor(p, Xor(XTime(Xor(p, q)), Sum(p, q, r, s)));
    assert f == XTime(XTime(Xor(a, c)));
    hide *;
    assert XTime(Xor(p, q)) == Xor(w, f) by {
      AdjacentMixed(a, b, c, d);
      Linear(Xor(a, b), XTime(Xor(a, c)));
    }
    assert Sum(p, q, r, s) == t by { SumOfMixed(a, b, c, d); }
    assert Xor(Xor(a, Xor(w, t)), Xor(Xor(w, f), t)) == Xor(a, f) by { Absorb(a, w, t, f); }
  }

  lemma Absorb(a: bv8, w: bv8, t: bv8, f: bv8)
    ensures Xor(Xor(a, Xor(w, t)), Xor(Xor(w, f), t)) == Xor(a, f)
  {
    hide Xor;
    Commute(w, f);
    Assoc(f, w, t);
    CancelCommon(a, f, Xor(w, t));
  }

  // ---- Unmixing is P followed by mixing ----

  lemma ProductE(x: bv8)
    ensures Multiply(x, 0x0e) == Xor(Xor(XTime(Four(x)), Four(x)), XTime(x))
  {
    hide XTime;
  }

  lemma ProductB(x: bv8)
    ensures Multiply(x, 0x0b) == Xor(Xor(XTime(Four(x)), XTime(x)), x)
  {
    hide XTime;
  }

  lemma ProductD(x: bv8)
    ensures Multiply(x, 0x0d) == Xor(Xor(XTime(Four(x)), Four(x)), x)
  {
    hide XTime;
  }

  lemma Product9(x: bv8)
    ensures Multiply(x, 0x09) == Xor(XTime(Four(x)), x)
  {
    hide XTime;
  }

  lemma FourLinear(a: bv8, b: bv8)
    ensures Four(Xor(a, b)) == Xor(Four(a), Four(b))
  {
    hide XTime, Xor;
    Linear(a, b);
    Linear(XTime(a), XTime(b));
  }

  lemma GroupFirst(p8: bv8, p4: bv8, p2: bv8, q8: bv8, q2: bv8, q1: bv8)
    ensures Xor(Xor(Xor(p8, p4), p2), Xor(Xor(q8, q2), q1)) == Xor(Xor(p8, q8), Xor(p4, Xor(Xor(p2, q2), q1)))
  {
    hide Xor;
    Assoc(p8, p4, p2);
    Assoc(q8, q2, q1);
    Swap(p8, Xor(p4, p2), q8, Xor(q2, q1));
    Assoc(p4, p2, Xor(q2, q1));
    Assoc(p2, q2, q1);
  }

  lemma GroupSecond(r8: bv8, r4: bv8, r1: bv8, s8: bv8, s1: bv8)
    ensures Xor(Xor(Xor(r8, r4), r1), Xor(s8, s1)) == Xor(Xor(r8, s8), Xor(r4, Xor(r1, s1)))
  {
    hide Xor;
    Assoc(r8, r4, r1);
    Swap(r8, Xor(r4, r1), s8, s1);
    Assoc(r4, r1, s1);
  }

  lemma GroupBoth(a: bv8, p4: bv8, u: bv8, b: bv8, r4: bv8, v: bv8)
    ensures Xor(Xor(a, Xor(p4, u)), Xor(b, Xor(r4, v))) == Xor(Xor(a, b), Xor(Xor(p4, r4), Xor(u, v)))
  {
    hide Xor;
    Swap(a, Xor(p4, u), b, Xor(r4, v));
    Swap(p4, u, r4, v);
  }

  // The products of InvMixColumns collected by power of two.
  lemma Collected(p: bv8, q: bv8, r: bv8, s: bv8)
    ensures Unmixed(p, q, r, s)
         == Xor(XTime(Four(Sum(p, q, r, s))), Xor(Four(Xor(p, r)), Xor(Xor(XTime(Xor(p, q)), q), Xor(r, s))))
  {
    hide XTime, Four, Xor, Multiply;
    ProductE(p);
    ProductB(q);
    ProductD(r);
    Product9(s);
    var p8, q8, r8, s8 := XTime(Four(p)), XTime(Four(q)), XTime(Four(r)), XTime(Four(s));
    GroupFirst(p8, Four(p), XTime(p), q8, XTime(q), q);
    GroupSecond(r8, Four(r), r, s8, s);
    GroupBoth(Xor(p8, q8), Four(p), Xor(Xor(XTime(p), XTime(q)), q), Xor(r8, s8), Four(r), Xor(r, s));
    Linear(p, q);
    FourLinear(p, r);
    EightLinear(p, q);
    EightLinear(r, s);
    EightLinear(Xor(p, q), Xor(r, s));
  }

  lemma EightLinear(a: bv8, b: bv8)
    ensures XTime(Four(Xor(a, b))) == Xor(XTime(Four(a)), XTime(Four(b)))
  {
    hide XTime, Four, Xor;
    FourLinear(a, b);
    Linear(Four(a), Four(b));
  }

  lemma UnmixedIsMixed(p: bv8, q: bv8, r: bv8, s: bv8, u: bv8, v: bv8)
    requires u == Four(Xor(p, r)) && v == Four(Xor(q, s))
    ensures Unmixed(p, q, r, s) == Mixed(Xor(p, u), Xor(q, v), Xor(r, u), Xor(s, v))
  {
    hide XTime, Four, Xor, Multiply, Unmixed;
    Collected(p, q, r, s);
    var t, x := Sum(p, q, r, s), XTime(Xor(p, q));
    var t8 := XTime(Four(t));
    assert Xor(u, v) == Four(t) by {
      FourLinear(Xor(p, r), Xor(q, s));
      Swap(p, r, q, s);
    }
    assert Xor(Xor(p, u), Xor(q, v)) == Xor(Xor(p, q), Four(t)) by { Swap(p, u, q, v); }
    assert Xor(Xor(r, u), Xor(s, v)) == Xor(Xor(r, s), Four(t)) by { Swap(r, u, s, v); }
    assert Sum(Xor(p, u), Xor(q, v), Xor(r, u), Xor(s, v)) == t by {
      CancelCommon(Xor(p, q), Xor(r, s), Four(t));
    }
    assert XTime(Xor(Xor(p, u), Xor(q, v))) == Xor(x, t8) by { Linear(Xor(p, q), Four(t)); }
    FinalGroup(t8, u, x, p, q, r, s);
  }

  lemma FinalGroup(t8: bv8, u: bv8, x: bv8, p: bv8, q: bv8, r: bv8, s: bv8)
    ensures Xor(t8, Xor(u, Xor(Xor(x, q), Xor(r, s))))
         == Xor(Xor(p, u), Xor(Xor(x, t8), Xor(Xor(p, q), Xor(r, s))))
  {
    hide Xor;
    var n, ux := Xor(q, Xor(r, s)), Xor(u, x);
    calc {
      Xor(Xor(p, u), Xor(Xor(x, t8), Xor(Xor(p, q), Xor(r, s))));
      { Assoc(p, q, Xor(r, s)); Swap(x, t8, p, n); Commute(x, p); }
      Xor(Xor(p, u), Xor(Xor(p, x), Xor(t8, n)));
      { Assoc(Xor(p, u), Xor(p, x), Xor(t8, n)); Commute(p, u); CancelMiddle(u, p, x); }
      Xor(ux, Xor(t8, n));
      { Assoc(ux, t8, n); Commute(ux, t8); Assoc(t8, ux, n); Assoc(u, x, n); }
      Xor(t8, Xor(u, Xor(x, n)));
      { Assoc(x, q, Xor(r, s)); }
      Xor(t8, Xor(u, Xor(Xor(x, q), Xor(r, s))));
    }
  }

  // ---- The result ----

  // InvMixColumns undoes MixColumns on the first byte of a column, and so, rotated, on each.
  lemma UnmixedInvertsMixed(a: bv8, b: bv8, c: bv8, d: bv8)
    ensures Unmixed(Mixed(a, b, c, d), Mixed(b, c, d, a), Mixed(c, d, a, b), Mixed(d, a, b, c)) == a
  {
    hide *;
    var p, q, r, s := Mixed(a, b, c, d), Mixed(b, c, d, a), Mixed(c, d, a, b), Mixed(d, a, b, c);
    var a2, b2, c2, d2 := Mixed(p, q, r, s), Mixed(q, r, s, p), Mixed(r, s, p, q), Mixed(s, p, q, r);
    var u, v, f := Four(Xor(p, r)), Four(Xor(q, s)), Four(Xor(a, c));
    MixedTwice(p, q, r, s);
    MixedTwice(q, r, s, p);
    MixedTwice(r, s, p, q);
    MixedTwice(s, p, q, r);
    Commute(r, p);
    Commute(s, q);
    UnmixedIsMixed(p, q, r, s, u, v);
    MixedTwice(a2, b2, c2, d2);
    assert a2 == Xor(a, f) by { MixedTwice(a, b, c, d); }
    assert c2 == Xor(c, f) by { MixedTwice(c, d, a, b); Commute(c, a); }
    CancelCommon(a, c, f);
    CancelLast(a, f);
  }

  // ---- The standard's own definitions ----

  // xtime is multiplication by 2, and 3 times a byte is 2 times it plus itself.
  lemma SmallProducts(x: bv8)
    ensures Multiply(x, 1) == x && Multiply(x, 2) == XTime(x) && Multiply(x, 3) == Xor(XTime(x), x)
  {
  }

  // One byte of MixColumns is the row (2 3 1 1) of the matrix in section 5.1.3 of FIPS 197.
  lemma MixedIsMatrixRow(a: bv8, b: bv8, c: bv8, d: bv8)
    ensures Mixed(a, b, c, d) == Sum(Multiply(a, 2), Multiply(b, 3), c, d)
  {
    SmallProducts(a);
    SmallProducts(b);
    Linear(a, b);
    hide Multiply, XTime;
    MatrixRow(a, b, c, d, XTime(a), XTime(b));
  }

  lemma MatrixRow(a: bv8, b: bv8, c: bv8, d: bv8, a2: bv8, b2: bv8)
    ensures Xor(a, Xor(Xor(a2, b2), Sum(a, b, c, d))) == Sum(a2, Xor(b2, b), c, d)
  {
  }
}
