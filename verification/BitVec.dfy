/** Bit vectors packed into machine words: as a set of indices, and as one long number. */
module BitVec {
  import opened Basics
  import opened Powers

  // ----- words --------------------------------------------------------------------------------------------

  /** Bit i of a word: what is left in the lowest place after shifting right by i. */
  function Bit(w: nat, i: nat): bool {
    if i == 0 then w % 2 == 1 else Bit(w / 2, i - 1)
  }

  lemma {:induction false} BitIsShift(w: nat, i: nat)
    ensures Bit(w, i) <==> Quot(w, Pow2(i)) % 2 == 1
    decreases i
  {
    if i == 0 {
      assert Pow2(0) == 1;
    } else {
      BitIsShift(w / 2, i - 1);
      ShiftTwice(w, i - 1, 1);
      assert Pow2(1) == 2 * Pow2(0) == 2;
    }
  }

  function Or(a: nat, b: nat): nat
    decreases a
  {
    if a == 0 then b else if b == 0 then a
    else 2 * Or(a / 2, b / 2) + (if a % 2 == 1 || b % 2 == 1 then 1 else 0)
  }

  function AndNot(a: nat, b: nat): nat
    decreases a
  {
    if a == 0 then 0 else 2 * AndNot(a / 2, b / 2) + (if a % 2 == 1 && b % 2 == 0 then 1 else 0)
  }

  lemma {:induction false} ZeroBit(i: nat)
    ensures !Bit(0, i)
  {
    if i > 0 {
      ZeroBit(i - 1);
    }
  }

  lemma {:induction false} OrBit(a: nat, b: nat, i: nat)
    ensures Bit(Or(a, b), i) <==> Bit(a, i) || Bit(b, i)
    decreases i
  {
    ZeroBit(i);
    if a != 0 && b != 0 && i > 0 {
      OrBit(a / 2, b / 2, i - 1);
    }
  }

  lemma {:induction false} AndNotBit(a: nat, b: nat, i: nat)
    ensures Bit(AndNot(a, b), i) <==> Bit(a, i) && !Bit(b, i)
    decreases i
  {
    ZeroBit(i);
    if a != 0 && i > 0 {
      AndNotBit(a / 2, b / 2, i - 1);
    }
  }

  lemma {:induction false} OrBound(a: nat, b: nat, n: nat)
    requires a < Pow2(n) && b < Pow2(n)
    ensures Or(a, b) < Pow2(n)
    decreases n
  {
    if a != 0 && b != 0 {
      OrBound(a / 2, b / 2, n - 1);
    }
  }

  lemma {:induction false} AndNotBound(a: nat, b: nat)
    ensures AndNot(a, b) <= a
    decreases a
  {
    if a != 0 {
      AndNotBound(a / 2, b / 2);
    }
  }

  lemma {:induction false} PowBit(b: nat, i: nat)
    ensures Bit(Pow2(b), i) <==> i == b
    decreases b
  {
    if b == 0 {
      if i > 0 {
        ZeroBit(i - 1);
      }
    } else if i > 0 {
      PowBit(b - 1, i - 1);
    }
  }

  lemma {:induction false} PowMonotone(a: nat, b: nat)
    requires a < b
    ensures Pow2(a) < Pow2(b)
  {
    if a + 1 < b {
      PowMonotone(a, b - 1);
    }
  }

  /** Or-ing a number below 2^n into a multiple of 2^n adds it. */
  lemma {:induction false} OrAdds(h: nat, n: nat, l: nat)
    requires l < Pow2(n)
    ensures Or(h * Pow2(n), l) == h * Pow2(n) + l
    decreases n
  {
    if n == 0 {
      assert Pow2(0) == 1;
    } else {
      var p := Pow2(n - 1);
      assert h * Pow2(n) == 2 * (h * p);
      OrAdds(h, n - 1, l / 2);
      assert h * Pow2(n) / 2 == h * p;
    }
  }

  /** The place of the lowest unset bit: one less than what ffs returns for the complement. */
  function LowestZero(w: nat): (b: nat)
    ensures !Bit(w, b) && forall j :: 0 <= j < b ==> Bit(w, j)
  {
    if w % 2 == 0 then 0 else 1 + LowestZero(w / 2)
  }

  lemma {:induction false} LowestZeroBound(w: nat, n: nat)
    requires w < Pow2(n) - 1
    ensures LowestZero(w) < n
    decreases n
  {
    if w % 2 != 0 {
      LowestZeroBound(w / 2, n - 1);
    }
  }

  lemma {:induction false} AllOnes(n: nat, j: nat)
    requires j < n
    ensures Bit(Pow2(n) - 1, j)
    decreases n
  {
    if j > 0 {
      assert (Pow2(n) - 1) / 2 == Pow2(n - 1) - 1;
      AllOnes(n - 1, j - 1);
    }
  }

  function Ones(w: nat): nat {
    if w == 0 then 0 else w % 2 + Ones(w / 2)
  }

  // ----- vectors of words as sets -------------------------------------------------------------------------------

  ghost predicate Words(words: seq<nat>, bpw: nat) {
    bpw > 0 && forall k :: 0 <= k < |words| ==> words[k] < Pow2(bpw)
  }

  lemma Place(bpw: nat, w: nat, b: nat)
    requires b < bpw
    ensures Quot(w * bpw + b, bpw) == w && Rem(w * bpw + b, bpw) == b
  {
    QuotientUnique(w * bpw + b, bpw, w, b);
  }

  lemma PlaceBound(bpw: nat, n: nat, idx: nat)
    requires bpw > 0 && idx < n * bpw
    ensures Quot(idx, bpw) < n
  {
    hide Quot, Rem;
    DivMod(idx, bpw);
    if Quot(idx, bpw) >= n {
      MulMonotone(n, Quot(idx, bpw), bpw);
    }
  }

  predicate IsSet(words: seq<nat>, bpw: nat, idx: nat)
    requires bpw > 0
  {
    Quot(idx, bpw) < |words| && Bit(words[Quot(idx, bpw)], Rem(idx, bpw))
  }

  /** The first n bits. */
  function Unpacked(words: seq<nat>, bpw: nat, n: nat): seq<bool>
    requires bpw > 0
  {
    seq(n, i requires 0 <= i => IsSet(words, bpw, i))
  }

  lemma PointUpdate(words: seq<nat>, bpw: nat, n: nat, idx: nat, word: nat, v: bool)
    requires bpw > 0 && idx < n <= |words| * bpw
    requires Quot(idx, bpw) < |words|
    requires forall i :: 0 <= i < bpw ==>
                           (Bit(word, i) <==> if i == Rem(idx, bpw) then v else Bit(words[Quot(idx, bpw)], i))
    ensures Unpacked(words[Quot(idx, bpw) := word], bpw, n) == Unpacked(words, bpw, n)[idx := v]
  {
    var w := Quot(idx, bpw);
    var after := words[w := word];
    hide Quot, Rem, Bit;
    forall i | 0 <= i < n
      ensures IsSet(after, bpw, i) == Unpacked(words, bpw, n)[idx := v][i]
    {
      DivMod(i, bpw);
      DivMod(idx, bpw);
      PlaceBound(bpw, |words|, i);
    }
  }

  /** popcount of a bit vector. */
  function CountTrue(bits: seq<bool>): nat {
    if |bits| == 0 then 0 else CountTrue(bits[..|bits| - 1]) + (if bits[|bits| - 1] then 1 else 0)
  }

  lemma {:induction false} CountConcat(a: seq<bool>, b: seq<bool>)
    ensures CountTrue(a + b) == CountTrue(a) + CountTrue(b)
  {
    if b == [] {
      assert a + b == a;
    } else {
      assert (a + b)[..|a + b| - 1] == a + b[..|b| - 1];
      CountConcat(a, b[..|b| - 1]);
    }
  }

  function WordBits(w: nat, n: nat): seq<bool> {
    seq(n, i requires 0 <= i => Bit(w, i))
  }

  lemma {:induction false} OnesCounts(w: nat, n: nat)
    requires w < Pow2(n)
    ensures Ones(w) == CountTrue(WordBits(w, n))
    decreases n
  {
    if n > 0 {
      var low := [Bit(w, 0)];
      assert WordBits(w, n) == low + WordBits(w / 2, n - 1);
      CountConcat(low, WordBits(w / 2, n - 1));
      assert low[..0] == [];
      OnesCounts(w / 2, n - 1);
    }
  }

  lemma CountWord(words: seq<nat>, bpw: nat, w: nat)
    requires Words(words, bpw) && w < |words|
    ensures CountTrue(Unpacked(words, bpw, (w + 1) * bpw)) == CountTrue(Unpacked(words, bpw, w * bpw)) + Ones(words[w])
  {
    var all, init, last := Unpacked(words, bpw, (w + 1) * bpw), Unpacked(words, bpw, w * bpw), WordBits(words[w], bpw);
    assert (w + 1) * bpw == w * bpw + bpw;
    hide Quot, Rem, Bit;
    forall b | 0 <= b < bpw
      ensures all[w * bpw + b] == last[b]
    {
      Place(bpw, w, b);
    }
    assert all == init + last;
    CountConcat(init, last);
    OnesCounts(words[w], bpw);
  }

  // ----- vectors of words as numbers ------------------------------------------------------------------------------

  /** The number the words spell, lowest word first. */
  function Value(words: seq<nat>, bpw: nat): nat {
    if words == [] then 0 else words[0] + Pow2(bpw) * Value(words[1..], bpw)
  }

  /** A word shifted left by amt, taking in the carry from the word below. */
  function ShiftWord(w: nat, bpw: nat, amt: nat, carry: nat): nat {
    Or(Rem(w * Pow2(amt), Pow2(bpw)), carry)
  }

  function CarryOut(w: nat, bpw: nat, amt: nat): nat
    requires amt <= bpw
  {
    Quot(w, Pow2(bpw - amt))
  }

  function Shifted(words: seq<nat>, bpw: nat, amt: nat, carry: nat): (r: seq<nat>)
    requires amt <= bpw
    ensures |r| == |words|
  {
    if words == [] then []
    else [ShiftWord(words[0], bpw, amt, carry)] + Shifted(words[1..], bpw, amt, CarryOut(words[0], bpw, amt))
  }

  lemma {:induction false} ShiftedAt(words: seq<nat>, bpw: nat, amt: nat, carry: nat, k: nat)
    requires amt <= bpw && k < |words|
    ensures Shifted(words, bpw, amt, carry)[k] ==
            ShiftWord(words[k], bpw, amt, if k == 0 then carry else CarryOut(words[k - 1], bpw, amt))
  {
    if k > 0 {
      ShiftedAt(words[1..], bpw, amt, CarryOut(words[0], bpw, amt), k - 1);
    }
  }

  lemma MulLess(q: nat, d: nat, e: nat)
    requires d > 0 && q * d < e * d
    ensures q < e
  {
    if q >= e {
      MulMonotone(e, q, d);
    }
  }

  lemma MulSplit(q: nat, c: nat, r: nat, a: nat)
    ensures (q * c + r) * a == q * (c * a) + r * a
  {
    Regroup(q, r, c, a);
    MulCommutes(a, c);
  }

  lemma MulCommutes(a: nat, b: nat)
    ensures a * b == b * a
  {
  }

  lemma SplitWord(w: nat, q: nat, r: nat, c: nat, a: nat, p: nat, carry: nat)
    requires w == q * c + r && r < c && p == c * a && w < p && carry < a
    ensures w * a == q * p + r * a && r * a + carry < p && r * a < p && q < a
    ensures r * a + carry + p * q == w * a + carry
  {
    MulSplit(q, c, r, a);
    MulMonotone(r + 1, c, a);
    assert (r + 1) * a == r * a + a;
    MulCommutes(q, p);
    MulCommutes(a, c);
    MulLess(q, c, a);
  }

  /** One word: w * 2^amt + carry is the shifted word plus 2^bpw times the carry out. */
  lemma ShiftWordValue(w: nat, bpw: nat, amt: nat, carry: nat)
    requires amt <= bpw && w < Pow2(bpw) && carry < Pow2(amt)
    ensures ShiftWord(w, bpw, amt, carry) + Pow2(bpw) * CarryOut(w, bpw, amt) == w * Pow2(amt) + carry
    ensures ShiftWord(w, bpw, amt, carry) < Pow2(bpw) && CarryOut(w, bpw, amt) < Pow2(amt)
  {
    hide Pow2, Quot, Rem, Or;
    var a, c := Pow2(amt), Pow2(bpw - amt);
    Pow2Sum(bpw - amt, amt);
    assert bpw - amt + amt == bpw;
    var q, r := Quot(w, c), Rem(w, c);
    DivMod(w, c);
    SplitWord(w, q, r, c, a, Pow2(bpw), carry);
    QuotientUnique(w * a, Pow2(bpw), q, r * a);
    OrAdds(r, amt, carry);
  }

  lemma {:induction false} ValueBound(words: seq<nat>, bpw: nat)
    requires Words(words, bpw)
    ensures Value(words, bpw) < Pow2(bpw * |words|)
  {
    if words == [] {
      assert bpw * 0 == 0;
    } else {
      var v, p := Value(words[1..], bpw), Pow2(bpw * |words[1..]|);
      ValueBound(words[1..], bpw);
      assert bpw * |words| == bpw + bpw * |words[1..]|;
      Pow2Sum(bpw, bpw * |words[1..]|);
      hide Pow2;
      MulMonotone(v + 1, p, Pow2(bpw));
      assert (v + 1) * Pow2(bpw) == v * Pow2(bpw) + Pow2(bpw);
      MulCommutes(v, Pow2(bpw));
      MulCommutes(p, Pow2(bpw));
    }
  }

  lemma Carried(w: nat, v: nat, p: nat, a: nat, carry: nat, low: nat, c: nat, high: nat, top: nat, out: nat,
                all: nat, shifted: nat, total: nat)
    requires low + p * c == w * a + carry && v * a + c == high + top * out
    requires all == w + p * v && shifted == low + p * high && total == p * top
    ensures all * a + carry == shifted + total * out
  {
    assert (w + p * v) * a == w * a + p * (v * a);
    assert p * (v * a + c) == p * (v * a) + p * c;
    assert p * (high + top * out) == p * high + p * top * out;
  }

  lemma {:induction false} ShiftedWords(words: seq<nat>, bpw: nat, amt: nat, carry: nat)
    requires Words(words, bpw) && amt <= bpw && carry < Pow2(amt)
    ensures Words(Shifted(words, bpw, amt, carry), bpw)
  {
    if words != [] {
      ShiftWordValue(words[0], bpw, amt, carry);
      ShiftedWords(words[1..], bpw, amt, CarryOut(words[0], bpw, amt));
      hide Pow2, ShiftWord, CarryOut;
    }
  }

  lemma ValueStep(words: seq<nat>, bpw: nat)
    requires words != []
    ensures Value(words, bpw) == words[0] + Pow2(bpw) * Value(words[1..], bpw)
    ensures Pow2(bpw * |words|) == Pow2(bpw) * Pow2(bpw * |words[1..]|)
  {
    hide Pow2;
    assert bpw * |words| == bpw + bpw * |words[1..]|;
    Pow2Sum(bpw, bpw * |words[1..]|);
  }

  lemma ShiftedStep(words: seq<nat>, bpw: nat, amt: nat, carry: nat)
    requires words != [] && amt <= bpw
    ensures Value(Shifted(words, bpw, amt, carry), bpw) ==
            ShiftWord(words[0], bpw, amt, carry)
            + Pow2(bpw) * Value(Shifted(words[1..], bpw, amt, CarryOut(words[0], bpw, amt)), bpw)
  {
    hide Pow2, ShiftWord, CarryOut, Value;
    var r := Shifted(words, bpw, amt, carry);
    ValueStep(r, bpw);
    assert r[1..] == Shifted(words[1..], bpw, amt, CarryOut(words[0], bpw, amt));
  }

  lemma NoWords(bpw: nat)
    ensures Pow2(bpw * 0) == 1
  {
    assert bpw * 0 == 0;
  }

  /** Shifting every word, carries included, multiplies the number by 2^amt, up to a carry out of the top. */
  lemma {:induction false} ShiftedValue(words: seq<nat>, bpw: nat, amt: nat, carry: nat) returns (out: nat)
    requires Words(words, bpw) && amt <= bpw && carry < Pow2(amt)
    ensures Value(words, bpw) * Pow2(amt) + carry ==
            Value(Shifted(words, bpw, amt, carry), bpw) + Pow2(bpw * |words|) * out
    decreases words
  {
    if words == [] {
      NoWords(bpw);
      hide Pow2;
      out := carry;
    } else {
      hide Pow2, ShiftWord, CarryOut, Value, Shifted;
      var rest := words[1..];
      var c := CarryOut(words[0], bpw, amt);
      ShiftWordValue(words[0], bpw, amt, carry);
      out := ShiftedValue(rest, bpw, amt, c);
      ValueStep(words, bpw);
      ShiftedStep(words, bpw, amt, carry);
      Carried(words[0], Value(rest, bpw), Pow2(bpw), Pow2(amt), carry, ShiftWord(words[0], bpw, amt, carry), c,
              Value(Shifted(rest, bpw, amt, c), bpw), Pow2(bpw * |rest|), out,
              Value(words, bpw), Value(Shifted(words, bpw, amt, carry), bpw), Pow2(bpw * |words|));
    }
  }

  lemma ShiftedModulo(words: seq<nat>, bpw: nat, amt: nat)
    requires Words(words, bpw) && amt <= bpw
    ensures Words(Shifted(words, bpw, amt, 0), bpw)
    ensures Value(Shifted(words, bpw, amt, 0), bpw) == Rem(Value(words, bpw) * Pow2(amt), Pow2(bpw * |words|))
  {
    hide Pow2, Shifted, Value, Quot, Rem;
    ShiftedWords(words, bpw, amt, 0);
    var r := Shifted(words, bpw, amt, 0);
    var out := ShiftedValue(words, bpw, amt, 0);
    ValueBound(r, bpw);
    MulCommutes(out, Pow2(bpw * |words|));
    QuotientUnique(Value(words, bpw) * Pow2(amt), Pow2(bpw * |words|), out, Value(r, bpw));
  }

  lemma OrZero(a: nat)
    ensures Or(a, 0) == a
  {
  }

  // ----- the vector -------------------------------------------------------------------------------------------------

  class SimBitvec {
    const bpw: nat
    const nBits: nat
    const arr: array<nat>

    ghost predicate Valid()
      reads arr
    {
      bpw > 0 && arr.Length == Quot(nBits + bpw - 1, bpw) && Words(arr[..], bpw)
    }

    ghost function Bits(): (s: seq<bool>)
      requires Valid()
      reads arr
      ensures |s| == nBits
    {
      Unpacked(arr[..], bpw, nBits)
    }

    /** The words cover the bits, and the last word is needed. */
    lemma WordsCover()
      requires Valid()
      ensures nBits <= arr.Length * bpw && forall w :: 0 <= w < arr.Length ==> w * bpw < nBits
    {
      hide Quot, Rem;
      DivMod(nBits + bpw - 1, bpw);
      forall w | 0 <= w < arr.Length
        ensures w * bpw < nBits
      {
        MulMonotone(w + 1, arr.Length, bpw);
        assert (w + 1) * bpw == w * bpw + bpw;
      }
    }

    constructor (bpw: nat, nBits: nat)
      requires bpw > 0
      ensures Valid() && this.bpw == bpw && this.nBits == nBits && fresh(arr)
      ensures Bits() == seq(nBits, _ => false)
    {
      this.bpw, this.nBits := bpw, nBits;
      arr := new nat[Quot(nBits + bpw - 1, bpw)](_ => 0);
      new;
      forall i | 0 <= i < nBits
        ensures !IsSet(arr[..], bpw, i)
      {
        ZeroBit(Rem(i, bpw));
      }
    }

    method GetBit(idx: nat) returns (b: bool)
      requires Valid() && idx < nBits
      ensures b == Bits()[idx]
    {
      WordsCover();
      PlaceBound(bpw, arr.Length, idx);
      BitIsShift(arr[Quot(idx, bpw)], Rem(idx, bpw));
      b := Quot(arr[Quot(idx, bpw)], Pow2(Rem(idx, bpw))) % 2 == 1;
    }

    /** Refuses an index past the end. */
    method SetBit(idx: nat) returns (ok: bool)
      requires Valid()
      modifies arr
      ensures Valid() && (ok <==> idx < nBits)
      ensures Bits() == if ok then old(Bits())[idx := true] else old(Bits())
    {
      ok := idx < nBits;
      if ok {
        WordsCover();
        PlaceBound(bpw, arr.Length, idx);
        var w, b := Quot(idx, bpw), Rem(idx, bpw);
        ghost var words := arr[..];
        PowMonotone(b, bpw);
        OrBound(arr[w], Pow2(b), bpw);
        forall i | 0 <= i < bpw
          ensures Bit(Or(words[w], Pow2(b)), i) <==> if i == b then true else Bit(words[w], i)
        {
          OrBit(words[w], Pow2(b), i);
          PowBit(b, i);
        }
        PointUpdate(words, bpw, nBits, idx, Or(words[w], Pow2(b)), true);
        arr[w] := Or(arr[w], Pow2(b));
        assert arr[..] == words[w := Or(words[w], Pow2(b))];
      }
    }

    method ClearBit(idx: nat)
      requires Valid() && idx < nBits
      modifies arr
      ensures Valid() && Bits() == old(Bits())[idx := false]
    {
      WordsCover();
      PlaceBound(bpw, arr.Length, idx);
      var w, b := Quot(idx, bpw), Rem(idx, bpw);
      ghost var words := arr[..];
      AndNotBound(words[w], Pow2(b));
      forall i | 0 <= i < bpw
        ensures Bit(AndNot(words[w], Pow2(b)), i) <==> if i == b then false else Bit(words[w], i)
      {
        AndNotBit(words[w], Pow2(b), i);
        PowBit(b, i);
      }
      PointUpdate(words, bpw, nBits, idx, AndNot(words[w], Pow2(b)), false);
      arr[w] := AndNot(arr[w], Pow2(b));
      assert arr[..] == words[w := AndNot(words[w], Pow2(b))];
    }

    /** Gives up on a vector that does not fill its last word. */
    method Popcount() returns (c: Option<nat>)
      requires Valid()
      ensures c == if arr.Length * bpw == nBits then Some(CountTrue(Bits())) else None
    {
      if bpw * arr.Length != nBits {
        return None;
      }
      var n, w := 0, 0;
      while w < arr.Length
        invariant w <= arr.Length && n == CountTrue(Unpacked(arr[..], bpw, w * bpw))
      {
        CountWord(arr[..], bpw, w);
        n := n + Ones(arr[w]);
        w := w + 1;
      }
      c := Some(n);
    }

    /** The least unset index below the length, whether or not the last word is full; -1 if every bit is set. */
    method FindFirstUnset() returns (r: int)
      requires Valid()
      ensures r == -1 || (0 <= r < nBits && !Bits()[r])
      ensures forall j :: 0 <= j < (if r == -1 then nBits else r) ==> Bits()[j]
    {
      WordsCover();
      var w := 0;
      while w < arr.Length
        invariant w <= arr.Length
        invariant forall j :: 0 <= j < w * bpw && j < nBits ==> Bits()[j]
      {
        var word := arr[w];
        if word != Pow2(bpw) - 1 {
          var b := if word == 0 then 0 else LowestZero(word);
          LowestZeroBound(word, bpw);
          FirstInWord(w, b);
          if w * bpw + b < nBits {
            return w * bpw + b;
          }
        } else {
          FullWord(w);
        }
        w := w + 1;
      }
      r := -1;
    }

    lemma FirstInWord(w: nat, b: nat)
      requires Valid() && w < arr.Length && b < bpw && !Bit(arr[w], b) && forall j :: 0 <= j < b ==> Bit(arr[w], j)
      ensures w * bpw + b < nBits ==> !Bits()[w * bpw + b]
      ensures forall j :: w * bpw <= j < w * bpw + b && j < nBits ==> Bits()[j]
    {
      Place(bpw, w, b);
      forall j | w * bpw <= j < w * bpw + b && j < nBits
        ensures Bits()[j]
      {
        Place(bpw, w, j - w * bpw);
      }
    }

    lemma FullWord(w: nat)
      requires Valid() && w < arr.Length && arr[w] == Pow2(bpw) - 1
      ensures forall j :: w * bpw <= j < (w + 1) * bpw && j < nBits ==> Bits()[j]
    {
      assert (w + 1) * bpw == w * bpw + bpw;
      forall j | w * bpw <= j < (w + 1) * bpw && j < nBits
        ensures Bits()[j]
      {
        Place(bpw, w, j - w * bpw);
        AllOnes(bpw, j - w * bpw);
      }
    }

    /** The search starts at the last bit and wraps round; -1 exactly when every bit is set. */
    method FindFirstUnsetRr() returns (r: int)
      requires Valid()
      ensures r == -1 <==> forall j :: 0 <= j < nBits ==> Bits()[j]
      ensures r != -1 ==> 0 <= r < nBits && !Bits()[r]
      ensures r != -1 && r != nBits - 1 ==> Bits()[nBits - 1] && forall j :: 0 <= j < r ==> Bits()[j]
    {
      var i, b := 0, nBits - 1;
      while i < nBits
        invariant 0 <= i <= nBits && b == (if i == 0 then nBits - 1 else i - 1)
        invariant i > 0 ==> Bits()[nBits - 1]
        invariant forall j :: 0 <= j < i - 1 ==> Bits()[j]
      {
        var v := GetBit(b);
        if !v {
          return b;
        }
        b := if b + 1 == nBits then 0 else b + 1;
        i := i + 1;
      }
      r := -1;
    }

    /** Multiplies the number by 2^amt, dropping what does not fit. */
    method ShiftLeft(amt: nat)
      requires Valid() && 0 < amt < bpw && arr.Length > 0
      modifies arr
      ensures Valid() && arr[..] == Shifted(old(arr[..]), bpw, amt, 0)
      ensures Value(arr[..], bpw) == Rem(old(Value(arr[..], bpw)) * Pow2(amt), Pow2(bpw * arr.Length))
    {
      hide Pow2, Shifted, Value, Quot, Rem, Or;
      ghost var words := arr[..];
      var i := arr.Length - 1;
      arr[i] := Rem(arr[i] * Pow2(amt), Pow2(bpw));
      while i > 0
        invariant 0 <= i < arr.Length
        invariant forall k :: 0 <= k < i ==> arr[k] == words[k]
        invariant arr[i] == Rem(words[i] * Pow2(amt), Pow2(bpw))
        invariant forall k :: i < k < arr.Length ==>
                    arr[k] == ShiftWord(words[k], bpw, amt, CarryOut(words[k - 1], bpw, amt))
      {
        i := i - 1;
        var wrap := Quot(arr[i], Pow2(bpw - amt));
        arr[i + 1] := Or(arr[i + 1], wrap);
        arr[i] := Rem(arr[i] * Pow2(amt), Pow2(bpw));
      }
      OrZero(arr[0]);
      forall k | 0 <= k < arr.Length
        ensures arr[k] == Shifted(words, bpw, amt, 0)[k]
      {
        ShiftedAt(words, bpw, amt, 0, k);
      }
      assert arr[..] == Shifted(words, bpw, amt, 0);
      ShiftedModulo(words, bpw, amt);
    }
  }
}
