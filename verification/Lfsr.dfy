/** A shift register fed bit by bit, over any register type with an exclusive-or: the facts
    about the CRC register that follow from linearity and injectivity of one shift. */
module Lfsr {

  /** `unshift` inverts the shift, `up` moves a word one place up, `bit` is the word with
      only the lowest bit, `fits(w, k)` says that w uses only the k lowest of 16 places. */
  datatype Algebra<!R> = Algebra(
    shift: R -> R, unshift: R -> R, xor: (R, R) -> R, zero: R,
    up: R -> R, bit: bool -> R, fits: (R, nat) -> bool)

  ghost predicate Linear<R(!new)>(a: Algebra<R>) {
    && (forall x, y {:trigger a.shift(a.xor(x, y))} :: a.shift(a.xor(x, y)) == a.xor(a.shift(x), a.shift(y)))
    && a.shift(a.zero) == a.zero
  }

  ghost predicate Invertible<R(!new)>(a: Algebra<R>) {
    forall x {:trigger a.unshift(a.shift(x))} :: a.unshift(a.shift(x)) == x
  }

  ghost predicate Cancels<R(!new)>(a: Algebra<R>) {
    && (forall x {:trigger a.xor(x, a.zero)} :: a.xor(x, a.zero) == x)
    && (forall x {:trigger a.xor(x, x)} :: a.xor(x, x) == a.zero)
    && a.bit(false) == a.zero
    && (forall x, z {:trigger a.xor(a.xor(x, z), z)} :: a.xor(a.xor(x, z), z) == x)
    && (forall x, z {:trigger a.xor(z, a.xor(z, x))} :: a.xor(z, a.xor(z, x)) == x)
  }

  /** Words built bit by bit, and what a shift does with them. */
  ghost predicate Pushes<R(!new)>(a: Algebra<R>) {
    && a.fits(a.zero, 0)
    && (forall w, k: nat, b {:trigger a.fits(w, k), a.xor(a.up(w), a.bit(b))} ::
          a.fits(w, k) && k < 16 ==> a.fits(a.xor(a.up(w), a.bit(b)), k + 1))
    && (forall c, w, k: nat, b {:trigger a.fits(w, k), a.xor(c, a.xor(a.up(w), a.bit(b)))} ::
          a.fits(w, k) && k < 16 ==>
            a.shift(a.xor(c, a.xor(a.up(w), a.bit(b)))) == a.xor(a.shift(a.xor(c, a.bit(b))), w))
    && (forall w, v, k: nat, b, d {:trigger a.fits(w, k), a.fits(v, k), a.xor(a.up(w), a.bit(b)), a.xor(a.up(v), a.bit(d))} ::
          a.fits(w, k) && a.fits(v, k) && k < 16 && a.xor(a.up(w), a.bit(b)) == a.xor(a.up(v), a.bit(d)) ==>
            w == v && b == d)
  }

  /** Exclusive-or works bit by bit. */
  ghost predicate Mixes<R(!new)>(a: Algebra<R>) {
    forall c, d, b, e {:trigger a.xor(a.xor(c, a.bit(b)), a.xor(d, a.bit(e)))} ::
      a.xor(a.xor(c, a.bit(b)), a.xor(d, a.bit(e))) == a.xor(a.xor(c, d), a.bit(b != e))
  }

  /** Exclusive-or as a commutative group operation whose bits add without carry. */
  ghost predicate Group<R(!new)>(a: Algebra<R>) {
    && (forall x, y, z {:trigger a.xor(a.xor(x, y), z)} :: a.xor(a.xor(x, y), z) == a.xor(x, a.xor(y, z)))
    && (forall x, y {:trigger a.xor(x, y)} :: a.xor(x, y) == a.xor(y, x))
    && (forall b, e {:trigger a.xor(a.bit(b), a.bit(e))} :: a.xor(a.bit(b), a.bit(e)) == a.bit(b != e))
  }

  lemma Swap<R(!new)>(a: Algebra<R>, c: R, d: R, x: R, y: R)
    requires Group(a)
    ensures a.xor(a.xor(c, x), a.xor(d, y)) == a.xor(a.xor(c, d), a.xor(x, y))
  {
    assert a.xor(a.xor(c, x), a.xor(d, y)) == a.xor(c, a.xor(x, a.xor(d, y)));
    assert a.xor(a.xor(x, d), y) == a.xor(x, a.xor(d, y));
    assert a.xor(a.xor(d, x), y) == a.xor(d, a.xor(x, y));
    assert a.xor(a.xor(c, d), a.xor(x, y)) == a.xor(c, a.xor(d, a.xor(x, y)));
  }

  lemma MixesFromGroup<R(!new)>(a: Algebra<R>)
    requires Group(a)
    ensures Mixes(a)
  {
    forall c, d, b, e ensures a.xor(a.xor(c, a.bit(b)), a.xor(d, a.bit(e))) == a.xor(a.xor(c, d), a.bit(b != e)) {
      Swap(a, c, d, a.bit(b), a.bit(e));
    }
  }

  ghost predicate Laws<R(!new)>(a: Algebra<R>) {
    Linear(a) && Invertible(a) && Cancels(a) && Pushes(a) && Mixes(a)
  }

  function Shifts<R>(a: Algebra<R>, c: R, n: nat): R
    decreases n
  {
    if n == 0 then c else Shifts(a, a.shift(c), n - 1)
  }

  /** Feeding one bit. */
  function Feed1<R>(a: Algebra<R>, c: R, b: bool): R { a.shift(a.xor(c, a.bit(b))) }

  function Feed<R>(a: Algebra<R>, c: R, bits: seq<bool>): R
    decreases bits
  {
    if bits == [] then c else Feed(a, Feed1(a, c, bits[0]), bits[1..])
  }

  /** The word whose bits, lowest first, are the given ones. */
  function Word<R>(a: Algebra<R>, bits: seq<bool>): R {
    if bits == [] then a.zero else a.xor(a.up(Word(a, bits[1..])), a.bit(bits[0]))
  }

  lemma {:induction false} ShiftsLinear<R(!new)>(a: Algebra<R>, x: R, y: R, n: nat)
    requires Linear(a)
    ensures Shifts(a, a.xor(x, y), n) == a.xor(Shifts(a, x, n), Shifts(a, y, n))
    decreases n
  {
    if n > 0 { ShiftsLinear(a, a.shift(x), a.shift(y), n - 1); }
  }

  lemma ShiftInjective<R(!new)>(a: Algebra<R>, x: R, y: R)
    requires Invertible(a) && a.shift(x) == a.shift(y)
    ensures x == y
  {
    assert a.unshift(a.shift(x)) == x && a.unshift(a.shift(y)) == y;
  }

  lemma XorRight<R(!new)>(a: Algebra<R>, x: R, y: R, z: R)
    requires Cancels(a) && a.xor(x, z) == a.xor(y, z)
    ensures x == y
  {
    assert a.xor(a.xor(x, z), z) == x && a.xor(a.xor(y, z), z) == y;
  }

  lemma XorLeft<R(!new)>(a: Algebra<R>, c: R, x: R, y: R)
    requires Cancels(a) && a.xor(c, x) == a.xor(c, y)
    ensures x == y
  {
    assert a.xor(c, a.xor(c, x)) == x && a.xor(c, a.xor(c, y)) == y;
  }

  lemma {:induction false} ShiftsInjective<R(!new)>(a: Algebra<R>, x: R, y: R, n: nat)
    requires Invertible(a) && Shifts(a, x, n) == Shifts(a, y, n)
    ensures x == y
    decreases n
  {
    if n > 0 {
      ShiftsInjective(a, a.shift(x), a.shift(y), n - 1);
      ShiftInjective(a, x, y);
    }
  }

  lemma {:induction false} ShiftsZero<R(!new)>(a: Algebra<R>, n: nat)
    requires Linear(a)
    ensures Shifts(a, a.zero, n) == a.zero
    decreases n
  {
    if n > 0 { ShiftsZero(a, n - 1); }
  }

  lemma PushFits<R(!new)>(a: Algebra<R>, w: R, k: nat, b: bool)
    requires Pushes(a) && a.fits(w, k) && k < 16
    ensures a.fits(a.xor(a.up(w), a.bit(b)), k + 1)
  {
  }

  lemma PushInjective<R(!new)>(a: Algebra<R>, w: R, v: R, k: nat, b: bool, d: bool)
    requires Pushes(a) && a.fits(w, k) && a.fits(v, k) && k < 16
    requires a.xor(a.up(w), a.bit(b)) == a.xor(a.up(v), a.bit(d))
    ensures w == v && b == d
  {
  }

  lemma {:induction false} WordFits<R(!new)>(a: Algebra<R>, bits: seq<bool>)
    requires Pushes(a) && |bits| <= 16
    ensures a.fits(Word(a, bits), |bits|)
    decreases bits
  {
    if bits != [] {
      WordFits(a, bits[1..]);
      PushFits(a, Word(a, bits[1..]), |bits| - 1, bits[0]);
    }
  }

  /** Up to 16 bits fed one by one equal one exclusive-or of the whole word and as many shifts. */
  lemma {:induction false} FeedWord<R(!new)>(a: Algebra<R>, c: R, bits: seq<bool>)
    requires Cancels(a) && Pushes(a) && |bits| <= 16
    ensures Feed(a, c, bits) == Shifts(a, a.xor(c, Word(a, bits)), |bits|)
    decreases bits
  {
    if bits != [] {
      var w := Word(a, bits[1..]);
      var b := a.bit(bits[0]);
      WordFits(a, bits[1..]);
      assert a.shift(a.xor(c, a.xor(a.up(w), b))) == a.xor(Feed1(a, c, bits[0]), w);
      FeedWord(a, Feed1(a, c, bits[0]), bits[1..]);
    }
  }

  lemma {:induction false} FeedAppend<R>(a: Algebra<R>, c: R, x: seq<bool>, y: seq<bool>)
    ensures Feed(a, c, x + y) == Feed(a, Feed(a, c, x), y)
    decreases x
  {
    if x == [] {
      assert x + y == y;
    } else {
      assert (x + y)[1..] == x[1..] + y;
      FeedAppend(a, Feed1(a, c, x[0]), x[1..], y);
    }
  }

  /** Different registers stay different under the same bits. */
  lemma {:induction false} FeedInjective<R(!new)>(a: Algebra<R>, c: R, d: R, bits: seq<bool>)
    requires Invertible(a) && Cancels(a) && Feed(a, c, bits) == Feed(a, d, bits)
    ensures c == d
    decreases bits
  {
    if bits != [] {
      var b := a.bit(bits[0]);
      FeedInjective(a, Feed1(a, c, bits[0]), Feed1(a, d, bits[0]), bits[1..]);
      ShiftInjective(a, a.xor(c, b), a.xor(d, b));
      XorRight(a, c, d, b);
    }
  }

  lemma {:induction false} WordInjective<R(!new)>(a: Algebra<R>, x: seq<bool>, y: seq<bool>)
    requires Pushes(a) && |x| == |y| <= 16 && Word(a, x) == Word(a, y)
    ensures x == y
    decreases x
  {
    if x != [] {
      WordFits(a, x[1..]);
      WordFits(a, y[1..]);
      PushInjective(a, Word(a, x[1..]), Word(a, y[1..]), |x| - 1, x[0], y[0]);
      WordInjective(a, x[1..], y[1..]);
      assert x == [x[0]] + x[1..] && y == [y[0]] + y[1..];
    }
  }

  /** Up to 16 different bits lead a register to different values. */
  lemma FeedSeparates<R(!new)>(a: Algebra<R>, c: R, x: seq<bool>, y: seq<bool>)
    requires Laws(a) && |x| == |y| <= 16 && Feed(a, c, x) == Feed(a, c, y)
    ensures x == y
  {
    FeedWord(a, c, x);
    FeedWord(a, c, y);
    ShiftsInjective(a, a.xor(c, Word(a, x)), a.xor(c, Word(a, y)), |x|);
    XorLeft(a, c, Word(a, x), Word(a, y));
    WordInjective(a, x, y);
  }

  /** A burst: two bit streams that agree outside a window of at most 16 bits and leave the
      same register are the same stream. */
  lemma BurstSeparates<R(!new)>(a: Algebra<R>, c: R, before: seq<bool>, x: seq<bool>, y: seq<bool>, after: seq<bool>)
    requires Laws(a) && |x| == |y| <= 16
    requires Feed(a, c, before + x + after) == Feed(a, c, before + y + after)
    ensures x == y
  {
    FeedAppend(a, c, before, x); FeedAppend(a, c, before + x, after);
    FeedAppend(a, c, before, y); FeedAppend(a, c, before + y, after);
    var p := Feed(a, c, before);
    FeedInjective(a, Feed(a, p, x), Feed(a, p, y), after);
    FeedSeparates(a, p, x, y);
  }

  /** The streams agree outside `width` places from `start`. */
  predicate Agree(x: seq<bool>, y: seq<bool>, start: nat, width: nat) {
    |x| == |y| && forall k :: 0 <= k < |x| && !(start <= k < start + width) ==> x[k] == y[k]
  }

  /** The same with the window given by position; it may reach past the end. */
  lemma BurstWindow<R(!new)>(a: Algebra<R>, c: R, x: seq<bool>, y: seq<bool>, start: nat)
    requires Laws(a) && Agree(x, y, start, 16) && Feed(a, c, x) == Feed(a, c, y)
    ensures x == y
  {
    var i := if start <= |x| then start else |x|;
    var j := if start + 16 <= |x| then start + 16 else |x|;
    assert x == x[..i] + x[i..j] + x[j..];
    assert y == x[..i] + y[i..j] + x[j..];
    BurstSeparates(a, c, x[..i], x[i..j], y[i..j], x[j..]);
  }

  /** Where two bit streams differ. */
  function Diff(x: seq<bool>, y: seq<bool>): (d: seq<bool>)
    requires |x| == |y|
    ensures |d| == |x| && forall k :: 0 <= k < |x| ==> (d[k] <==> x[k] != y[k])
  {
    seq(|x|, k requires 0 <= k < |x| => x[k] != y[k])
  }

  /** Linearity: the registers of two streams differ by what their difference feeds into
      the difference of the start values. */
  lemma {:induction false} FeedLinear<R(!new)>(a: Algebra<R>, c: R, d: R, x: seq<bool>, y: seq<bool>)
    requires Linear(a) && Mixes(a) && |x| == |y|
    ensures Feed(a, a.xor(c, d), Diff(x, y)) == a.xor(Feed(a, c, x), Feed(a, d, y))
    decreases x
  {
    if x != [] {
      var c1, d1 := Feed1(a, c, x[0]), Feed1(a, d, y[0]);
      assert a.xor(a.xor(c, a.bit(x[0])), a.xor(d, a.bit(y[0]))) == a.xor(a.xor(c, d), a.bit(x[0] != y[0]));
      assert a.shift(a.xor(a.xor(c, a.bit(x[0])), a.xor(d, a.bit(y[0])))) == a.xor(c1, d1);
      assert Diff(x, y)[1..] == Diff(x[1..], y[1..]);
      FeedLinear(a, c1, d1, x[1..], y[1..]);
    }
  }

  /** Two streams leave the same register exactly when their difference, fed into the zero
      register, leaves zero. */
  lemma SameIffSyndromeZero<R(!new)>(a: Algebra<R>, c: R, x: seq<bool>, y: seq<bool>)
    requires Laws(a) && |x| == |y|
    ensures Feed(a, c, x) == Feed(a, c, y) <==> Feed(a, a.zero, Diff(x, y)) == a.zero
  {
    FeedLinear(a, c, c, x, y);
    var u, v := Feed(a, c, x), Feed(a, c, y);
    assert a.xor(c, c) == a.zero;
    if a.xor(u, v) == a.zero {
      assert a.xor(u, u) == a.zero;
      XorLeft(a, u, u, v);
    }
  }

  /** At most 16 bits take the register c to zero exactly when they spell c. */
  lemma ZeroAfterWord<R(!new)>(a: Algebra<R>, c: R, bits: seq<bool>)
    requires Laws(a) && |bits| <= 16
    ensures Feed(a, c, bits) == a.zero <==> c == Word(a, bits)
  {
    var w := Word(a, bits);
    FeedWord(a, c, bits);
    ShiftsZero(a, |bits|);
    assert a.xor(c, c) == a.zero;
    if Feed(a, c, bits) == a.zero {
      ShiftsInjective(a, a.xor(c, w), a.zero, |bits|);
      XorLeft(a, c, c, w);
    }
  }

  /** A difference of 17 bits is invisible exactly when it is zero or the one pattern
      `generator` followed by a one. */
  lemma SeventeenBits<R(!new)>(a: Algebra<R>, low: seq<bool>, last: bool, generator: seq<bool>)
    requires Laws(a) && a.up(a.zero) == a.zero && |low| == |generator| == 16
    requires Shifts(a, Word(a, generator), 16) == a.bit(true)
    ensures Feed(a, a.zero, low + [last]) == a.zero <==> low == (if last then generator else Zeros(16))
  {
    var p := Feed(a, a.zero, low);
    FeedAppend(a, a.zero, low, [last]);
    assert Feed(a, p, [last]) == Feed1(a, p, last);
    FeedOneZero(a, p, last);
    FeedWord(a, a.zero, low);
    ZeroLeft(a, Word(a, low));
    if last {
      SameWord(a, low, generator);
    } else {
      ZeroAfterWord(a, a.zero, low);
      ZeroWordIsZeros(a, low);
    }
  }

  lemma FeedOneZero<R(!new)>(a: Algebra<R>, p: R, b: bool)
    requires Laws(a)
    ensures Feed1(a, p, b) == a.zero <==> p == a.bit(b)
  {
    assert a.xor(p, p) == a.zero;
    if Feed1(a, p, b) == a.zero {
      ShiftInjective(a, a.xor(p, a.bit(b)), a.zero);
      XorLeft(a, p, p, a.bit(b));
    }
  }

  lemma ZeroLeft<R(!new)>(a: Algebra<R>, w: R)
    requires Laws(a)
    ensures a.xor(a.zero, w) == w
  {
    assert a.xor(a.xor(w, w), w) == w;
    assert a.xor(w, w) == a.zero;
  }

  lemma SameWord<R(!new)>(a: Algebra<R>, x: seq<bool>, y: seq<bool>)
    requires Laws(a) && |x| == |y| == 16
    ensures Shifts(a, Word(a, x), 16) == Shifts(a, Word(a, y), 16) <==> x == y
  {
    if Shifts(a, Word(a, x), 16) == Shifts(a, Word(a, y), 16) {
      ShiftsInjective(a, Word(a, x), Word(a, y), 16);
      WordInjective(a, x, y);
    }
  }

  function Zeros(n: nat): (z: seq<bool>)
    ensures |z| == n && forall k :: 0 <= k < n ==> !z[k]
  {
    if n == 0 then [] else [false] + Zeros(n - 1)
  }

  lemma {:induction false} WordOfZeros<R(!new)>(a: Algebra<R>, n: nat)
    requires Laws(a) && n <= 16 && a.up(a.zero) == a.zero
    ensures Word(a, Zeros(n)) == a.zero
    decreases n
  {
    if n > 0 {
      assert Zeros(n)[1..] == Zeros(n - 1);
      WordOfZeros(a, n - 1);
      assert a.xor(a.zero, a.zero) == a.zero;
    }
  }

  lemma SameWordOnly<R(!new)>(a: Algebra<R>, x: seq<bool>, z: seq<bool>, w: R)
    requires Pushes(a) && |x| == |z| <= 16 && Word(a, z) == w
    ensures Word(a, x) == w <==> x == z
  {
    if Word(a, x) == w { WordInjective(a, x, z); }
  }

  lemma {:induction false} ZeroWordIsZeros<R(!new)>(a: Algebra<R>, x: seq<bool>)
    requires Laws(a) && |x| == 16 && a.up(a.zero) == a.zero
    ensures Word(a, x) == a.zero <==> x == Zeros(16)
  {
    WordOfZeros(a, 16);
    SameWordOnly(a, x, Zeros(16), a.zero);
  }

  /** Zero bits keep the zero register at zero. */
  lemma {:induction false} FeedZeros<R(!new)>(a: Algebra<R>, n: nat)
    requires Laws(a)
    ensures Feed(a, a.zero, Zeros(n)) == a.zero
    decreases n
  {
    if n > 0 {
      assert Zeros(n)[1..] == Zeros(n - 1);
      assert a.xor(a.zero, a.zero) == a.zero;
      FeedZeros(a, n - 1);
    }
  }

  /** Only the window where a difference is not zero matters. */
  lemma WindowMatters<R(!new)>(a: Algebra<R>, before: nat, window: seq<bool>, after: nat)
    requires Laws(a)
    ensures Feed(a, a.zero, Zeros(before) + window + Zeros(after)) == a.zero <==> Feed(a, a.zero, window) == a.zero
  {
    FeedAppend(a, a.zero, Zeros(before), window);
    FeedAppend(a, a.zero, Zeros(before) + window, Zeros(after));
    FeedZeros(a, before);
    FeedZeros(a, after);
    var p := Feed(a, a.zero, window);
    if Feed(a, p, Zeros(after)) == a.zero {
      FeedInjective(a, p, a.zero, Zeros(after));
    }
  }

  lemma SeventeenPlaces<R(!new)>(a: Algebra<R>, w: seq<bool>, generator: seq<bool>)
    requires Laws(a) && a.up(a.zero) == a.zero && |w| == 17 && |generator| == 16
    requires Shifts(a, Word(a, generator), 16) == a.bit(true)
    ensures Feed(a, a.zero, w) == a.zero <==> w == Zeros(17) || w == generator + [true]
  {
    var low, last := w[..16], w[16];
    assert w == low + [last];
    SeventeenBits(a, low, last, generator);
    assert w == generator + [true] <==> last && low == generator by {
      assert (generator + [true])[..16] == generator;
    }
    assert w == Zeros(17) <==> !last && low == Zeros(16);
  }

  lemma WindowOfDiff(x: seq<bool>, y: seq<bool>, start: nat)
    requires start + 17 <= |x| && Agree(x, y, start, 17)
    ensures Diff(x, y) == Zeros(start) + Diff(x, y)[start..start + 17] + Zeros(|x| - start - 17)
  {
  }

  lemma NoDifference(x: seq<bool>, y: seq<bool>, start: nat)
    requires start + 17 <= |x| && Agree(x, y, start, 17) && Diff(x, y)[start..start + 17] == Zeros(17)
    ensures x == y
  {
    forall k | 0 <= k < |x| ensures x[k] == y[k] {
      if start <= k < start + 17 {
        assert Diff(x, y)[k] == Diff(x, y)[start..start + 17][k - start];
      }
    }
  }

  lemma SameIffWindowZero<R(!new)>(a: Algebra<R>, c: R, x: seq<bool>, y: seq<bool>, start: nat)
    requires Laws(a) && start + 17 <= |x| && Agree(x, y, start, 17)
    ensures Feed(a, c, x) == Feed(a, c, y) <==> Feed(a, a.zero, Diff(x, y)[start..start + 17]) == a.zero
  {
    var w, rest := Diff(x, y)[start..start + 17], |x| - start - 17;
    SameIffSyndromeZero(a, c, x, y);
    WindowMatters(a, start, w, rest);
    assert Diff(x, y) == Zeros(start) + w + Zeros(rest) by { WindowOfDiff(x, y, start); }
  }

  /** The pattern that 16 + 1 places need to go unnoticed. */
  ghost predicate Generates<R(!new)>(a: Algebra<R>, generator: seq<bool>) {
    && a.up(a.zero) == a.zero && |generator| == 16
    && Shifts(a, Word(a, generator), 16) == a.bit(true)
  }

  /** Streams that differ only inside a window of 17 places leave the same register exactly
      when they are equal or differ by the generator pattern. */
  lemma SeventeenWindow<R(!new)>(a: Algebra<R>, c: R, x: seq<bool>, y: seq<bool>, start: nat, generator: seq<bool>)
    requires Laws(a) && Generates(a, generator)
    requires start + 17 <= |x| && Agree(x, y, start, 17) && x != y
    ensures Feed(a, c, x) == Feed(a, c, y) <==> Diff(x, y)[start..start + 17] == generator + [true]
  {
    var w := Diff(x, y)[start..start + 17];
    SameIffWindowZero(a, c, x, y, start);
    SeventeenPlaces(a, w, generator);
    assert w != Zeros(17) by {
      if w == Zeros(17) { NoDifference(x, y, start); }
    }
  }

  // ---------------------------------------------------------------- parity

  predicate Odd(bits: seq<bool>) {
    if bits == [] then false else bits[0] != Odd(bits[1..])
  }

  /** `parity` is kept by a shift and flipped by a fed one. */
  ghost predicate Parity<R(!new)>(a: Algebra<R>, parity: R -> bool) {
    && (forall x {:trigger a.shift(x)} :: parity(a.shift(x)) == parity(x))
    && (forall x, b {:trigger a.xor(x, a.bit(b))} :: parity(a.xor(x, a.bit(b))) == (parity(x) != b))
  }

  lemma {:induction false} FeedParity<R(!new)>(a: Algebra<R>, parity: R -> bool, c: R, bits: seq<bool>)
    requires Parity(a, parity)
    ensures parity(Feed(a, c, bits)) == (parity(c) != Odd(bits))
    decreases bits
  {
    if bits != [] { FeedParity(a, parity, Feed1(a, c, bits[0]), bits[1..]); }
  }

  lemma {:induction false} OddDiff(x: seq<bool>, y: seq<bool>)
    requires |x| == |y|
    ensures Odd(Diff(x, y)) == (Odd(x) != Odd(y))
    decreases x
  {
    if x != [] {
      assert Diff(x, y)[1..] == Diff(x[1..], y[1..]);
      OddDiff(x[1..], y[1..]);
    }
  }
}
