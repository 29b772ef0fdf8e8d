/**
 * Option sets stored as 32-bit masks: each case of an option enumeration
 * has a raw value, a collection of cases is stored as the OR of their raw
 * values, and a mask is read back as the cases whose raw value shares a bit
 * with it.
 *
 * An option type is given by its cases `all` and its raw-value function
 * `raw`; a collection of cases is a sequence, in whatever order the
 * collection iterates.
 */
module BitMask {

  /** Every bit of `x` is set in `m`. */
  predicate Within(x: bv32, m: bv32) {
    x & m == x
  }

  lemma WithinOr(a: bv32, b: bv32)
    ensures Within(a, a | b) && Within(b, a | b)
  {
  }

  lemma WithinTrans(a: bv32, b: bv32, c: bv32)
    requires Within(a, b) && Within(b, c)
    ensures Within(a, c)
  {
  }

  lemma WithinComplement(a: bv32, b: bv32)
    requires a & b == 0
    ensures Within(a, !b)
  {
  }

  lemma OutsideComplement(a: bv32, b: bv32)
    requires Within(a, !b)
    ensures b & a == 0
  {
  }

  lemma OrWithin(a: bv32, b: bv32, m: bv32)
    requires Within(a, m) && Within(b, m)
    ensures Within(a | b, m)
  {
  }

  /** Every element's raw value lies within `m`. */
  predicate AllWithin<T>(raw: T -> bv32, xs: seq<T>, m: bv32) {
    forall i :: 0 <= i < |xs| ==> Within(raw(xs[i]), m)
  }

  lemma AllWithinTrans<T>(raw: T -> bv32, xs: seq<T>, m: bv32, n: bv32)
    requires AllWithin(raw, xs, m) && Within(m, n)
    ensures AllWithin(raw, xs, n)
  {
    forall i | 0 <= i < |xs| ensures Within(raw(xs[i]), n) {
      WithinTrans(raw(xs[i]), m, n);
    }
  }

  lemma AllWithinPrefix<T>(raw: T -> bv32, xs: seq<T>, m: bv32)
    requires |xs| > 0 && AllWithin(raw, xs, m)
    ensures AllWithin(raw, xs[..|xs| - 1], m)
  {
    var init := xs[..|xs| - 1];
    assert forall i :: 0 <= i < |init| ==> init[i] == xs[i];
  }

  /**
   * `flags`, i.e. `reduce(0, { $0 | $1.rawValue })`: the OR of the raw
   * values, folded from the first element to the last.
   */
  function Flags<T>(raw: T -> bv32, xs: seq<T>): (r: bv32)
    ensures |xs| == 0 ==> r == 0
    ensures AllWithin(raw, xs, r)
    decreases |xs|
  {
    if |xs| == 0 then 0
    else
      var init := xs[..|xs| - 1];
      var p := Flags(raw, init);
      var y := raw(xs[|xs| - 1]);
      WithinOr(p, y);
      AllWithinTrans(raw, init, p, p | y);
      assert forall i :: 0 <= i < |xs| - 1 ==> xs[i] == init[i];
      p | y
  }

  lemma FlagsSnoc<T>(raw: T -> bv32, xs: seq<T>)
    requires |xs| > 0
    ensures Flags(raw, xs) == Flags(raw, xs[..|xs| - 1]) | raw(xs[|xs| - 1])
  {
  }

  /** `flags` is the least mask covering every element's raw value. */
  lemma {:induction false} FlagsLeast<T>(raw: T -> bv32, xs: seq<T>, m: bv32)
    requires AllWithin(raw, xs, m)
    ensures Within(Flags(raw, xs), m)
    decreases |xs|
  {
    if |xs| > 0 {
      var init := xs[..|xs| - 1];
      AllWithinPrefix(raw, xs, m);
      FlagsLeast(raw, init, m);
      var p, y := Flags(raw, init), raw(xs[|xs| - 1]);
      assert Within(y, m);
      OrWithin(p, y, m);
      FlagsSnoc(raw, xs);
    }
  }

  /** `flags` depends only on which cases occur: not on their order, nor on repeats. */
  lemma FlagsOrderFree<T>(raw: T -> bv32, xs: seq<T>, ys: seq<T>)
    requires forall x :: x in xs <==> x in ys
    ensures Flags(raw, xs) == Flags(raw, ys)
  {
    var a, b := Flags(raw, xs), Flags(raw, ys);
    forall i | 0 <= i < |xs| ensures Within(raw(xs[i]), b) {
      assert xs[i] in ys;
      var j :| 0 <= j < |ys| && ys[j] == xs[i];
    }
    forall i | 0 <= i < |ys| ensures Within(raw(ys[i]), a) {
      assert ys[i] in xs;
      var j :| 0 <= j < |xs| && xs[j] == ys[i];
    }
    FlagsLeast(raw, xs, b);
    FlagsLeast(raw, ys, a);
  }

  /**
   * `isContained(in:)`: the case's raw value shares a bit with the mask,
   * that is, it does not lie wholly within the mask's complement. So nothing
   * is contained in 0, a case with raw value 0 is contained in nothing, and a
   * non-zero case is contained in every mask covering it.
   */
  function IsContained(rawValue: bv32, flags: bv32): (b: bool)
    ensures b <==> !Within(rawValue, !flags)
    ensures flags == 0 ==> !b
    ensures rawValue == 0 ==> !b
    ensures rawValue != 0 && Within(rawValue, flags) ==> b
  {
    rawValue & flags != 0
  }

  /** `from(flags:)`: the cases of `all` contained in the mask. */
  function From<T(==,!new)>(raw: T -> bv32, all: set<T>, flags: bv32): (r: set<T>)
    ensures r <= all
    ensures forall x :: x in r <==> x in all && raw(x) & flags != 0
    ensures flags == 0 ==> r == {}
  {
    set x | x in all && IsContained(raw(x), flags)
  }

  /** A wider mask reads back at least the same cases. */
  lemma FromMonotone<T(!new)>(raw: T -> bv32, all: set<T>, f: bv32, g: bv32)
    requires Within(f, g)
    ensures From(raw, all, f) <= From(raw, all, g)
  {
    forall x | x in From(raw, all, f) ensures x in From(raw, all, g) {
      assert raw(x) & f != 0;
    }
  }

  /** Storing cases with non-zero raw values and reading the mask back keeps every one of them. */
  lemma FromFlagsIncludes<T(!new)>(raw: T -> bv32, all: set<T>, xs: seq<T>)
    requires forall i :: 0 <= i < |xs| ==> xs[i] in all && raw(xs[i]) != 0
    ensures forall i :: 0 <= i < |xs| ==> xs[i] in From(raw, all, Flags(raw, xs))
  {
    var f := Flags(raw, xs);
    forall i | 0 <= i < |xs| ensures xs[i] in From(raw, all, f) {
      assert Within(raw(xs[i]), f);
    }
  }

  /** The cases of `all` have non-zero raw values, no two sharing a bit. */
  predicate DisjointBits<T(!new)>(raw: T -> bv32, all: set<T>) {
    && (forall x :: x in all ==> raw(x) != 0)
    && (forall x, y :: x in all && y in all && x != y ==> raw(x) & raw(y) == 0)
  }

  /** When no two cases' raw values share a bit, a case missing from a collection shares no bit with its mask. */
  lemma AbsentCaseOutsideFlags<T(!new)>(raw: T -> bv32, all: set<T>, xs: seq<T>, x: T)
    requires DisjointBits(raw, all)
    requires forall i :: 0 <= i < |xs| ==> xs[i] in all
    requires x in all && x !in xs
    ensures raw(x) & Flags(raw, xs) == 0
  {
    var b := raw(x);
    forall i | 0 <= i < |xs| ensures Within(raw(xs[i]), !b) {
      var a := raw(xs[i]);
      assert xs[i] != x && xs[i] in all;
      assert a & b == 0;
      WithinComplement(a, b);
    }
    FlagsLeast(raw, xs, !b);
    OutsideComplement(Flags(raw, xs), b);
  }

  /**
   * When the raw values are non-zero and no two share a bit, storing and
   * reading back is exact: the mask of a collection reads back as precisely
   * its cases.
   */
  lemma FromFlagsExact<T(!new)>(raw: T -> bv32, all: set<T>, xs: seq<T>)
    requires DisjointBits(raw, all)
    requires forall i :: 0 <= i < |xs| ==> xs[i] in all
    ensures forall x :: x in From(raw, all, Flags(raw, xs)) <==> x in xs
  {
    var f := Flags(raw, xs);
    FromFlagsIncludes(raw, all, xs);
    forall x | x in From(raw, all, f) ensures x in xs {
      if x !in xs {
        AbsentCaseOutsideFlags(raw, all, xs, x);
      }
    }
  }
}
