/**
 Polynomials over two elements as bit strings, highest power first, and their remainders by long division.
 */
module LongDivision {

  function XorBits(a: seq<bool>, b: seq<bool>): (r: seq<bool>)
    requires |a| == |b|
    ensures |r| == |a| && forall k :: 0 <= k < |r| ==> r[k] == (a[k] != b[k])
  {
    seq(|a|, k requires 0 <= k < |a| => a[k] != b[k])
  }

  function Zeros(n: nat): (r: seq<bool>)
    ensures |r| == n && forall k :: 0 <= k < n ==> !r[k]
  {
    seq(n, _ => false)
  }

  /** A generator of degree 16. */
  predicate Generates(g: seq<bool>) { |g| == 17 && g[0] }

  /** Subtracts the generator from the leading seventeen bits. */
  function Subtract(bits: seq<bool>, g: seq<bool>): (r: seq<bool>)
    requires Generates(g) && |bits| >= 17
    ensures |r| == |bits|
  {
    XorBits(bits[..17], g) + bits[17..]
  }

  /** The remainder of a bit string modulo the generator. */
  function Remainder(bits: seq<bool>, g: seq<bool>): (r: seq<bool>)
    requires Generates(g)
    ensures |bits| >= 16 ==> |r| == 16
    decreases |bits|
  {
    if |bits| <= 16 then bits
    else if bits[0] then Remainder(Subtract(bits, g)[1..], g)
    else Remainder(bits[1..], g)
  }

  /** What division does with the leading bit. */
  function Reduced(bits: seq<bool>, g: seq<bool>): (r: seq<bool>)
    requires Generates(g) && |bits| >= 17
    ensures |r| == |bits| - 1
  {
    if bits[0] then Subtract(bits, g)[1..] else bits[1..]
  }

  lemma RemainderReduced(bits: seq<bool>, g: seq<bool>)
    requires Generates(g) && |bits| >= 17
    ensures Remainder(bits, g) == Remainder(Reduced(bits, g), g)
  {
  }

  /** A string may be reduced before more bits follow it. */
  lemma {:induction false} RemainderPrefix(x: seq<bool>, m: seq<bool>, g: seq<bool>)
    requires Generates(g) && |x| >= 16
    ensures Remainder(x + m, g) == Remainder(Remainder(x, g) + m, g)
    decreases |x|
  {
    hide Remainder;
    if |x| == 16 {
      RemainderShort(x, g);
    } else {
      RemainderReduced(x, g);
      RemainderReduced(x + m, g);
      assert Reduced(x + m, g) == Reduced(x, g) + m by {
        assert (x + m)[..17] == x[..17] && (x + m)[17..] == x[17..] + m && (x + m)[1..] == x[1..] + m;
      }
      RemainderPrefix(Reduced(x, g), m, g);
    }
  }

  lemma RemainderShort(x: seq<bool>, g: seq<bool>)
    requires Generates(g) && |x| <= 16
    ensures Remainder(x, g) == x
  {
  }

  lemma ReducedXor(x: seq<bool>, y: seq<bool>, g: seq<bool>)
    requires Generates(g) && |x| == |y| >= 17
    ensures Reduced(XorBits(x, y), g) == XorBits(Reduced(x, g), Reduced(y, g))
  {
  }

  /** The remainder of a sum is the sum of the remainders. */
  lemma {:induction false} RemainderXor(x: seq<bool>, y: seq<bool>, g: seq<bool>)
    requires Generates(g) && |x| == |y| >= 16
    ensures Remainder(XorBits(x, y), g) == XorBits(Remainder(x, g), Remainder(y, g))
    decreases |x|
  {
    hide Remainder, Reduced, XorBits;
    if |x| == 16 {
      RemainderShort(x, g);
      RemainderShort(y, g);
      RemainderShort(XorBits(x, y), g);
    } else {
      RemainderReduced(x, g);
      RemainderReduced(y, g);
      RemainderReduced(XorBits(x, y), g);
      ReducedXor(x, y, g);
      RemainderXor(Reduced(x, g), Reduced(y, g), g);
    }
  }

  /** Leading zeros change nothing. */
  lemma {:induction false} RemainderZeros(n: nat, x: seq<bool>, g: seq<bool>)
    requires Generates(g) && |x| >= 16
    ensures Remainder(Zeros(n) + x, g) == Remainder(x, g)
    decreases n
  {
    hide Remainder;
    if n == 0 {
      assert Zeros(0) + x == x;
    } else {
      RemainderReduced(Zeros(n) + x, g);
      assert Reduced(Zeros(n) + x, g) == Zeros(n - 1) + x;
      RemainderZeros(n - 1, x, g);
    }
  }

  /** The check of a message followed by sixteen more bits, from the check of the message. */
  lemma RemainderExtends(message: seq<bool>, word: seq<bool>, g: seq<bool>)
    requires Generates(g) && |word| == 16
    ensures Remainder(message + word + Zeros(16), g)
            == Remainder(XorBits(Remainder(message + Zeros(16), g), word) + Zeros(16), g)
  {
    hide Remainder, XorBits;
    var z := Zeros(16);
    var front, back := (message + z) + z, Zeros(|message|) + (word + z);
    assert message + word + z == XorBits(front, back);
    RemainderXor(front, back, g);
    RemainderZeros(|message|, word + z, g);
    RemainderPrefix(message + z, z, g);
    var c := Remainder(message + z, g);
    assert XorBits(c, word) + z == XorBits(c + z, word + z);
    RemainderXor(c + z, word + z, g);
  }
}
