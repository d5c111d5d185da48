/**
 * The index arithmetic of the client's transport controls. `currentIndex` is a
 * JavaScript number: `nextTrack` and `prevTrack` compute it with `%`, which
 * truncates toward zero and yields `NaN` for a zero divisor (an empty
 * playlist), after which every further step stays `NaN`.
 */
module Transport {

  /** A JavaScript number as the queue sees it: an integer, or `NaN`. */
  datatype JsNumber = Finite(value: int) | NaN

  /** `i + k`; `NaN` absorbs. */
  function Add(i: JsNumber, k: int): (r: JsNumber)
    ensures r.NaN? <==> i.NaN?
    ensures i.Finite? ==> r.value == i.value + k
  {
    match i
    case NaN => NaN
    case Finite(v) => Finite(v + k)
  }

  /** The remainder of a truncating division by a positive `n`: it takes the sign of the dividend. */
  function TruncRem(a: int, n: nat): (r: int)
    requires n > 0
    ensures -(n as int) < r < n
    ensures a >= 0 ==> r == a % n
    ensures a < 0 ==> r <= 0
    ensures (a - r) % n == 0
  {
    var r := if a >= 0 then a % n else -((-a) % n);
    assert (a - r) % n == 0 by {
      var b := if a >= 0 then a else -a;
      assert b == n * (b / n) + b % n;
      if a >= 0 {
        MulMod(n, b / n);
      } else {
        assert a - r == n * -(b / n);
        MulMod(n, -(b / n));
      }
    }
    r
  }

  lemma {:induction false} MulAtLeast(n: int, k: int)
    requires n > 0 && k >= 1
    ensures n * k >= n
  {
    if k > 1 {
      MulAtLeast(n, k - 1);
      assert n * k == n * (k - 1) + n;
    }
  }

  /** Euclidean division is unique: a quotient and an in-range remainder are `/` and `%`. */
  lemma ModUnique(x: int, n: int, q: int, m: int)
    requires 0 <= m < n && x == n * q + m
    ensures x % n == m && x / n == q
  {
    var d := x / n;
    var r := x % n;
    assert n * (q - d) == r - m by {
      assert x == n * d + r;
      assert n * (q - d) == n * q - n * d;
    }
    if q > d {
      MulAtLeast(n, q - d);
    } else if q < d {
      MulAtLeast(n, d - q);
    }
  }

  lemma MulMod(n: int, q: int)
    requires n > 0
    ensures (n * q) % n == 0
  {
    ModUnique(n * q, n, q, 0);
  }

  lemma ModSucc(x: int, n: int)
    requires n > 0
    ensures (x + 1) % n == if x % n == n - 1 then 0 else x % n + 1
  {
    var q := x / n;
    if x % n == n - 1 {
      ModUnique(x + 1, n, q + 1, 0);
    } else {
      ModUnique(x + 1, n, q, x % n + 1);
    }
  }

  /** JavaScript `a % n` for a playlist length `n`: `NaN` when `a` is `NaN` or `n` is 0. */
  function JsRem(a: JsNumber, n: nat): (r: JsNumber)
    ensures r.NaN? <==> a.NaN? || n == 0
    ensures a.Finite? && 0 <= a.value && n > 0 ==> r == Finite(a.value % n)
  {
    if n == 0 then NaN
    else
      match a
      case NaN => NaN
      case Finite(v) => Finite(TruncRem(v, n))
  }

  /** A position inside a playlist of `n` items. */
  predicate InRange(i: JsNumber, n: nat) {
    i.Finite? && 0 <= i.value < n
  }

  /** `(i + 1) % playlist.items.length`. */
  function NextIndex(i: JsNumber, n: nat): (r: JsNumber)
    ensures InRange(i, n) ==> r == Finite(if i.value == n - 1 then 0 else i.value + 1)
    ensures i.Finite? && i.value >= -1 && n > 0 ==> InRange(r, n)
    ensures n == 0 || i.NaN? ==> r.NaN?
  {
    JsRem(Add(i, 1), n)
  }

  /** `(i - 1 + playlist.items.length) % playlist.items.length`. */
  function PrevIndex(i: JsNumber, n: nat): (r: JsNumber)
    ensures InRange(i, n) ==> r == Finite(if i.value == 0 then n - 1 else i.value - 1)
    ensures i.Finite? && i.value >= 1 - n && n > 0 ==> InRange(r, n)
    ensures n == 0 || i.NaN? ==> r.NaN?
  {
    JsRem(Add(Add(i, -1), n), n)
  }

  /** Going back after going forward returns to the same track. */
  lemma PrevAfterNext(i: JsNumber, n: nat)
    requires InRange(i, n)
    ensures PrevIndex(NextIndex(i, n), n) == i
  {
  }

  /** Going forward after going back returns to the same track. */
  lemma NextAfterPrev(i: JsNumber, n: nat)
    requires InRange(i, n)
    ensures NextIndex(PrevIndex(i, n), n) == i
  {
  }

  /** Going back from the first track wraps around to the last one. */
  lemma PrevFromFirst(n: nat)
    requires n > 0
    ensures PrevIndex(Finite(0), n) == Finite(n - 1)
  {
  }

  /**
   * A negative index (say one restored from storage) is not wrapped by `%`:
   * JavaScript keeps the sign, so the result lies outside the playlist.
   */
  lemma NegativeIndexStaysOutside()
    ensures NextIndex(Finite(-5), 3) == Finite(-1)
    ensures !InRange(NextIndex(Finite(-5), 3), 3)
  {
  }

  /** An empty playlist turns the index into `NaN`, and `NaN` never recovers. */
  lemma EmptyPlaylistLosesIndex(i: JsNumber, n: nat)
    ensures NextIndex(i, 0).NaN? && PrevIndex(i, 0).NaN?
    ensures NextIndex(NaN, n).NaN? && PrevIndex(NaN, n).NaN?
  {
  }

  /** `k` presses of Next. */
  function Forward(i: JsNumber, n: nat, k: nat): JsNumber {
    if k == 0 then i else NextIndex(Forward(i, n, k - 1), n)
  }

  /** `k` presses of Next from a track in range land `k` places further round the circle. */
  lemma {:induction false} ForwardIsRotation(i: JsNumber, n: nat, k: nat)
    requires InRange(i, n)
    ensures Forward(i, n, k) == Finite((i.value + k) % n)
  {
    if k > 0 {
      ForwardIsRotation(i, n, k - 1);
      var m := (i.value + k - 1) % n;
      assert Forward(i, n, k) == NextIndex(Finite(m), n);
      ModSucc(i.value + k - 1, n);
      assert (i.value + k - 1) + 1 == i.value + k;
    }
  }

  /** Pressing Next once per track brings the queue back to where it started. */
  lemma ForwardFullCircle(i: JsNumber, n: nat)
    requires InRange(i, n)
    ensures Forward(i, n, n) == i
  {
    ForwardIsRotation(i, n, n);
    ModUnique(i.value + n, n, 1, i.value);
  }
}
