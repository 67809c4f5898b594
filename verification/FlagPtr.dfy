/** The tagged words of `atomic_flag_ptr`: flags in the low bits of an aligned pointer. */
module FlagPtr {

  /** A pointer to an object aligned for the flags of the mask `m`, and flags that fit. */
  predicate Fits(m: bv64, p: bv64, fl: bv64) {
    p & m == 0 && fl & !m == 0
  }

  /** `_encode`: what was encoded is what is decoded, whatever the mask. */
  function Encode(m: bv64, p: bv64, fl: bv64): (v: bv64)
    requires Fits(m, p, fl)
    ensures Ptr(m, v) == p && Bits(m, v) == fl
  {
    p | fl
  }

  /** `_ptr`. */
  function Ptr(m: bv64, v: bv64): (p: bv64)
    ensures p & m == 0
  {
    v & !m
  }

  /** `_bitmask`. */
  function Bits(m: bv64, v: bv64): (fl: bv64)
    ensures fl & !m == 0
  {
    v & m
  }

  /** Every word is the code of what it decodes to. */
  lemma DecodeEncode(m: bv64, v: bv64)
    ensures Fits(m, Ptr(m, v), Bits(m, v)) && Encode(m, Ptr(m, v), Bits(m, v)) == v
  {
    Parts(m, v);
  }

  lemma Parts(m: bv64, v: bv64)
    ensures (v & !m) | (v & m) == v
  {}

  /** A compare-exchange of words is one of pointers and flags together: codes are equal exactly when both parts are. */
  lemma EncodeIsInjective(m: bv64, p: bv64, fl: bv64, q: bv64, gl: bv64)
    requires Fits(m, p, fl) && Fits(m, q, gl)
    ensures Encode(m, p, fl) == Encode(m, q, gl) <==> p == q && fl == gl
  {
    var v, w := Encode(m, p, fl), Encode(m, q, gl);
    assert v == w ==> Ptr(m, v) == Ptr(m, w) && Bits(m, v) == Bits(m, w);
  }
}
