/** Capability bitstrings (core/capabilities.go). A word is an unsigned 64-bit integer; the
    bitwise operators are defined on its binary digits. */
module Capabilities {
  import opened Base

  type Capability = int
  type Word = w: int | 0 <= w < TWO_64
  type CapabilityString = seq<Word>

  const UNUSED: Capability := -1

  function Pow2(n: nat): (p: nat)
    ensures p >= 1
  {
    if n == 0 then 1 else 2 * Pow2(n - 1)
  }

  /** Binary digit `k` of `w`. */
  predicate Bit(w: nat, k: nat) {
    if k == 0 then w % 2 == 1 else Bit(w / 2, k - 1)
  }

  function And(a: nat, b: nat): nat {
    if a == 0 || b == 0 then 0 else 2 * And(a / 2, b / 2) + (a % 2) * (b % 2)
  }

  function Or(a: nat, b: nat): nat
    decreases a + b
  {
    if a == 0 then b else if b == 0 then a
    else 2 * Or(a / 2, b / 2) + (if a % 2 == 1 || b % 2 == 1 then 1 else 0)
  }

  // ---------------------------------------------------------------- bits

  lemma {:induction false} ZeroHasNoBits(k: nat)
    ensures !Bit(0, k)
  {
    if k > 0 { ZeroHasNoBits(k - 1); }
  }

  lemma {:induction false} AndBit(a: nat, b: nat, k: nat)
    ensures Bit(And(a, b), k) <==> Bit(a, k) && Bit(b, k)
    decreases k
  {
    if a == 0 || b == 0 {
      ZeroHasNoBits(k);
    } else {
      var h := And(a / 2, b / 2);
      assert And(a, b) / 2 == h;
      if k > 0 { AndBit(a / 2, b / 2, k - 1); }
    }
  }

  lemma {:induction false} OrBit(a: nat, b: nat, k: nat)
    ensures Bit(Or(a, b), k) <==> Bit(a, k) || Bit(b, k)
    decreases k
  {
    if a == 0 || b == 0 {
      ZeroHasNoBits(k);
    } else {
      assert Or(a, b) / 2 == Or(a / 2, b / 2);
      if k > 0 { OrBit(a / 2, b / 2, k - 1); }
    }
  }

  lemma {:induction false} PowerBit(n: nat, k: nat)
    ensures Bit(Pow2(n), k) <==> k == n
  {
    if n == 0 {
      if k > 0 { ZeroHasNoBits(k - 1); }
    } else if k > 0 {
      PowerBit(n - 1, k - 1);
    }
  }

  /** A number below 2^n has no digit at `n` or beyond. */
  lemma {:induction false} HighBits(w: nat, n: nat, k: nat)
    requires w < Pow2(n) && k >= n
    ensures !Bit(w, k)
  {
    if n == 0 {
      ZeroHasNoBits(k);
    } else {
      HighBits(w / 2, n - 1, k - 1);
    }
  }

  /** Numbers with the same digits are equal. */
  lemma {:induction false} SameBits(a: nat, b: nat)
    requires forall k: nat :: Bit(a, k) <==> Bit(b, k)
    ensures a == b
    decreases a + b
  {
    assert Bit(a, 0) <==> Bit(b, 0);
    if a != 0 || b != 0 {
      forall k: nat ensures Bit(a / 2, k) <==> Bit(b / 2, k) {
        assert Bit(a, k + 1) <==> Bit(b, k + 1);
      }
      SameBits(a / 2, b / 2);
    }
  }

  lemma {:induction false} OrBounded(a: nat, b: nat, n: nat)
    requires a < Pow2(n) && b < Pow2(n)
    ensures Or(a, b) < Pow2(n)
  {
    if a != 0 && b != 0 {
      OrBounded(a / 2, b / 2, n - 1);
    }
  }

  lemma {:induction false} Pow2Monotone(a: nat, b: nat)
    requires a < b
    ensures Pow2(a) < Pow2(b)
  {
    if a < b - 1 { Pow2Monotone(a, b - 1); }
  }

  lemma Pow2Of16()
    ensures Pow2(16) == 0x1_0000
  {
    Pow2Sum(4, 4);
  }

  lemma Pow2Of64()
    ensures Pow2(64) == TWO_64
  {
    Pow2Of16();
    Pow2Sum(16, 16);
    Pow2Sum(32, 32);
  }

  lemma {:induction false} Pow2Sum(a: nat, b: nat)
    ensures Pow2(a + b) == Pow2(a) * Pow2(b)
  {
    if b > 0 {
      Pow2Sum(a, b - 1);
    }
  }

  // ---------------------------------------------------------------- strings as sets

  function WordAt(c: CapabilityString, i: nat): Word {
    if i < |c| then c[i] else 0
  }

  /** Capability `v` is in the string. */
  predicate Has(c: CapabilityString, v: nat) {
    Bit(WordAt(c, v / 64), v % 64)
  }

  /** Strings never end in an empty word. */
  predicate Normal(c: CapabilityString) {
    c != [] ==> c[|c| - 1] != 0
  }

  ghost predicate Contains(c: CapabilityString, caps: seq<Capability>) {
    forall v: nat :: Has(c, v) <==> v in caps
  }

  lemma OrWord(w: Word, n: nat)
    requires n < 64
    ensures Or(w, Pow2(n)) < TWO_64
    ensures Or(w, Pow2(n)) != 0
    ensures forall k: nat :: Bit(Or(w, Pow2(n)), k) <==> Bit(w, k) || k == n
  {
    Pow2Of64();
    Pow2Monotone(n, 64);
    OrBounded(w, Pow2(n), 64);
    forall k: nat ensures Bit(Or(w, Pow2(n)), k) <==> Bit(w, k) || k == n {
      OrBit(w, Pow2(n), k);
      PowerBit(n, k);
    }
    ZeroHasNoBits(n);
  }

  /** Sets one bit, growing the string as needed. */
  function SetBit(c: CapabilityString, v: nat): (r: CapabilityString)
    ensures |r| == if |c| <= v / 64 then v / 64 + 1 else |c|
  {
    OrWord(WordAt(c, v / 64), v % 64);
    var grown := if |c| <= v / 64 then c + seq(v / 64 + 1 - |c|, _ => 0) else c;
    grown[v / 64 := Or(WordAt(c, v / 64), Pow2(v % 64))]
  }

  lemma SetBitAdds(c: CapabilityString, v: nat, u: nat)
    ensures Has(SetBit(c, v), u) <==> Has(c, u) || u == v
  {
    OrWord(WordAt(c, v / 64), v % 64);
  }

  lemma SetBitNormal(c: CapabilityString, v: nat)
    requires Normal(c)
    ensures Normal(SetBit(c, v))
  {
    OrWord(WordAt(c, v / 64), v % 64);
  }

  /** The string of a list of capabilities holds exactly its valid members. */
  method NewCapabilityString(caps: seq<Capability>) returns (c: CapabilityString)
    ensures Normal(c)
    ensures Contains(c, caps)
  {
    c := [];
    NothingHas();
    for i := 0 to |caps|
      invariant Normal(c)
      invariant Contains(c, caps[..i])
    {
      var v := caps[i];
      if v <= UNUSED {
        continue;
      }
      ghost var before := c;
      var wordIndex := v / 64;
      var bitIndex := v % 64;
      while |c| <= wordIndex
        invariant |c| >= |before| && c[..|before|] == before
        invariant |c| <= wordIndex + 1 || c == before
        invariant forall j :: |before| <= j < |c| ==> c[j] == 0
        decreases wordIndex - |c|
      {
        c := c + [0];
      }
      OrWord(c[wordIndex], bitIndex);
      c := c[wordIndex := Or(c[wordIndex], Pow2(bitIndex))];
      SetBitNormal(before, v);
      forall u: nat ensures Has(c, u) <==> u in caps[..i + 1] {
        SetBitAdds(before, v, u);
      }
    }
    assert caps[..|caps|] == caps;
  }

  /** The layout of a string: capability 66 is bit 2 of the second word. */
  lemma Layout(v: nat)
    ensures Has([0, 4], v) <==> v == 66
    ensures Has([5], v) <==> v == 0 || v == 2
  {
    var k := v % 64;
    if v / 64 < 2 {
      BitsOfSmall(k);
    }
    ZeroHasNoBits(k);
  }

  lemma BitsOfSmall(k: nat)
    ensures Bit(4, k) <==> k == 2
    ensures Bit(5, k) <==> k == 0 || k == 2
  {
    assert Pow2(0) == 1 && Pow2(1) == 2 && Pow2(2) == 4 && Pow2(3) == 8;
    if k >= 3 {
      HighBits(4, 3, k);
      HighBits(5, 3, k);
    }
  }

  lemma NothingHas()
    ensures Contains([], [])
  {
    forall v: nat ensures !Has([], v) { ZeroHasNoBits(v % 64); }
  }

  // ---------------------------------------------------------------- compatibility

  /** Word by word, `c1` AND `c2` is `c1`. */
  predicate Covers(c1: CapabilityString, c2: CapabilityString) {
    |c1| <= |c2| && forall i :: 0 <= i < |c1| ==> And(c1[i], c2[i]) == c1[i]
  }

  method CompatibleWith(c1: CapabilityString, c2: CapabilityString) returns (ok: bool)
    ensures ok <==> Covers(c1, c2)
  {
    if |c1| > |c2| {
      return false;
    }
    for i := 0 to |c1|
      invariant forall j :: 0 <= j < i ==> And(c1[j], c2[j]) == c1[j]
    {
      if And(c1[i], c2[i]) != c1[i] {
        return false;
      }
    }
    ok := true;
  }

  ghost predicate BitSubset(a: Word, b: Word) {
    forall k: nat :: k < 64 && Bit(a, k) ==> Bit(b, k)
  }

  lemma AndIsSubset(a: Word, b: Word)
    ensures And(a, b) == a <==> BitSubset(a, b)
  {
    if And(a, b) == a {
      forall k: nat | k < 64 && Bit(a, k) ensures Bit(b, k) { AndBit(a, b, k); }
    }
    if BitSubset(a, b) {
      Pow2Of64();
      forall k: nat ensures Bit(And(a, b), k) <==> Bit(a, k) {
        AndBit(a, b, k);
        if k >= 64 { HighBits(a, 64, k); }
      }
      SameBits(And(a, b), a);
    }
  }

  ghost predicate Subset(c1: CapabilityString, c2: CapabilityString) {
    forall v: nat :: Has(c1, v) ==> Has(c2, v)
  }

  lemma SubsetGivesWord(c1: CapabilityString, c2: CapabilityString, i: nat)
    requires Subset(c1, c2)
    ensures And(WordAt(c1, i), WordAt(c2, i)) == WordAt(c1, i)
  {
    forall k: nat | k < 64 && Bit(WordAt(c1, i), k) ensures Bit(WordAt(c2, i), k) {
      var v := 64 * i + k;
      assert Has(c2, v);
    }
    AndIsSubset(WordAt(c1, i), WordAt(c2, i));
  }

  lemma CoversGivesSubset(c1: CapabilityString, c2: CapabilityString)
    requires Covers(c1, c2)
    ensures Subset(c1, c2)
  {
    forall v: nat | Has(c1, v) ensures Has(c2, v) {
      if v / 64 < |c1| {
        AndIsSubset(c1[v / 64], c2[v / 64]);
      } else {
        ZeroHasNoBits(v % 64);
        assert false;
      }
    }
  }

  /** For all strings, also those with trailing empty words, the word-wise check is inclusion
      together with the comparison of lengths it starts with. */
  lemma CoversIsSubset(c1: CapabilityString, c2: CapabilityString)
    ensures Covers(c1, c2) <==> Subset(c1, c2) && |c1| <= |c2|
  {
    if Covers(c1, c2) {
      CoversGivesSubset(c1, c2);
    }
    if Subset(c1, c2) && |c1| <= |c2| {
      forall i | 0 <= i < |c1| ensures And(c1[i], c2[i]) == c1[i] { SubsetGivesWord(c1, c2, i); }
    }
  }

  /** A string without a trailing empty word is no longer than one that includes it. */
  lemma NormalIsShorter(c1: CapabilityString, c2: CapabilityString)
    requires Subset(c1, c2) && Normal(c1)
    ensures |c1| <= |c2|
  {
    if |c1| > |c2| {
      SubsetGivesWord(c1, c2, |c1| - 1);
      assert false;
    }
  }

  /** Bitstrings refine sets: the word-wise check on the strings of two lists decides whether
      the valid members of one are among the other's. */
  lemma CompatibleIsSubset(a: seq<Capability>, b: seq<Capability>, c1: CapabilityString, c2: CapabilityString)
    requires Contains(c1, a) && Normal(c1) && Contains(c2, b)
    ensures Covers(c1, c2) <==> forall v: nat :: v in a ==> v in b
  {
    CoversIsSubset(c1, c2);
    if forall v: nat :: v in a ==> v in b {
      NormalIsShorter(c1, c2);
    }
  }

  datatype Caps = Caps(bitstring: CapabilityString, mandatories: CapabilityString)

  /** The broadcaster must know what the orchestrator insists on, and ask for no more than the
      orchestrator offers. No capabilities at all are compatible with nothing. */
  method CapabilitiesCompatible(bcast: Option<Caps>, orch: Caps) returns (ok: bool)
    ensures ok <==> bcast.Some? && Covers(orch.mandatories, bcast.value.bitstring) &&
                    Covers(bcast.value.bitstring, orch.bitstring)
  {
    if bcast.None? {
      return false;
    }
    var known := CompatibleWith(orch.mandatories, bcast.value.bitstring);
    if !known {
      return false;
    }
    ok := CompatibleWith(bcast.value.bitstring, orch.bitstring);
  }

  /** The single equation that the two checks are meant to be replaced by, missing words
      reading as zero: bcast AND orch == bcast OR mandatories. */
  ghost predicate SingleEquation(bcast: CapabilityString, orch: Caps) {
    forall i: nat :: And(WordAt(bcast, i), WordAt(orch.bitstring, i)) == Or(WordAt(bcast, i), WordAt(orch.mandatories, i))
  }

  lemma EquationGivesSubsets(bcast: CapabilityString, orch: Caps)
    requires SingleEquation(bcast, orch)
    ensures Subset(bcast, orch.bitstring) && Subset(orch.mandatories, bcast)
  {
    forall v: nat
      ensures Has(bcast, v) ==> Has(orch.bitstring, v)
      ensures Has(orch.mandatories, v) ==> Has(bcast, v)
    {
      var i := v / 64;
      AndBit(WordAt(bcast, i), WordAt(orch.bitstring, i), v % 64);
      OrBit(WordAt(bcast, i), WordAt(orch.mandatories, i), v % 64);
    }
  }

  lemma SubsetsGiveEquation(bcast: CapabilityString, orch: Caps)
    requires Subset(bcast, orch.bitstring) && Subset(orch.mandatories, bcast)
    ensures SingleEquation(bcast, orch)
  {
    forall i: nat
      ensures And(WordAt(bcast, i), WordAt(orch.bitstring, i)) == Or(WordAt(bcast, i), WordAt(orch.mandatories, i))
    {
      var b, m := WordAt(bcast, i), WordAt(orch.mandatories, i);
      SubsetGivesWord(bcast, orch.bitstring, i);
      SubsetGivesWord(orch.mandatories, bcast, i);
      forall k: nat ensures Bit(Or(b, m), k) <==> Bit(b, k) {
        OrBit(b, m, k);
        AndBit(m, b, k);
      }
      SameBits(Or(b, m), b);
    }
  }

  /** The two-step check is the single equation and, besides, that the strings do not get
      shorter from mandatories to request to offer. */
  lemma TwoStepsIff(bcast: CapabilityString, orch: Caps)
    ensures Covers(orch.mandatories, bcast) && Covers(bcast, orch.bitstring) <==>
              SingleEquation(bcast, orch) && |orch.mandatories| <= |bcast| <= |orch.bitstring|
  {
    CoversIsSubset(orch.mandatories, bcast);
    CoversIsSubset(bcast, orch.bitstring);
    if Subset(orch.mandatories, bcast) && Subset(bcast, orch.bitstring) {
      SubsetsGiveEquation(bcast, orch);
    }
    if SingleEquation(bcast, orch) {
      EquationGivesSubsets(bcast, orch);
    }
  }

  /** Hence for strings without trailing empty words it is the single equation. */
  lemma TwoStepsAreOneEquation(bcast: CapabilityString, orch: Caps)
    requires Normal(bcast) && Normal(orch.mandatories)
    ensures Covers(orch.mandatories, bcast) && Covers(bcast, orch.bitstring) <==> SingleEquation(bcast, orch)
  {
    TwoStepsIff(bcast, orch);
    if SingleEquation(bcast, orch) {
      EquationGivesSubsets(bcast, orch);
      NormalIsShorter(orch.mandatories, bcast);
      NormalIsShorter(bcast, orch.bitstring);
    }
  }

  /** With a trailing empty word, as a peer may send it, the two checks disagree with the
      equation: the string of nothing is refused by an orchestrator of nothing. */
  lemma TrailingWordBreaksEquation()
    ensures !Covers([0], []) && Subset([0], []) && SingleEquation([0], Caps([], []))
  {}
}
