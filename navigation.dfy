/**
 * The pure arithmetic and decisions behind lightbox navigation in
 * script.js: JavaScript's remainder, the wrap-around of previous/next
 * (script.js:160-168), Array.prototype.indexOf (script.js:138), the swipe
 * rule (script.js:79-90) and the keys the keydown listener reacts to
 * (script.js:43-57).
 */
module Navigation {

  function Abs(x: int): nat {
    if x < 0 then -x else x
  }

  /**
   * JavaScript's `%` on whole numbers: it truncates, so the result has the
   * sign of the dividend, where Dafny's `%` is Euclidean.
   */
  function JsRem(a: int, b: int): (r: int)
    requires b > 0
    ensures Abs(r) == Abs(a) % b
    ensures a >= 0 ==> r == a % b && 0 <= r < b
    ensures a < 0 ==> -b < r <= 0
  {
    if a >= 0 then a % b else -((-a) % b)
  }

  /** A remainder is pinned down by any quotient that leaves it in [0, b). */
  lemma ModUnique(a: int, b: int, q: int, r: int)
    requires b > 0 && a == q * b + r && 0 <= r < b
    ensures a % b == r
  {
    var d := q - a / b;
    assert d * b == a % b - r;
  }

  /** Below twice the divisor, taking the remainder subtracts the divisor at most once. */
  lemma RemBelowTwice(a: int, b: int)
    requires b > 0
    ensures 0 <= a < 2 * b ==> a % b == if a < b then a else a - b
  {
    if 0 <= a < b {
      ModUnique(a, b, 0, a);
    } else if b <= a < 2 * b {
      ModUnique(a, b, 1, a - b);
    }
  }

  /** The index nextImage moves to among len visible items. */
  function NextIndex(i: int, len: int): (r: int)
    requires len > 0 && i >= -1
    ensures 0 <= r < len
    ensures -1 <= i < len - 1 ==> r == i + 1
    ensures i == len - 1 ==> r == 0
  {
    RemBelowTwice(i + 1, len);
    JsRem(i + 1, len)
  }

  /** The index previousImage moves to among len visible items. */
  function PrevIndex(i: int, len: int): (r: int)
    requires len > 0 && i >= -1
    ensures 0 <= r < len
    ensures 0 < i <= len ==> r == i - 1
    ensures i == 0 ==> r == len - 1
    ensures i == -1 ==> r == if len == 1 then 0 else len - 2
  {
    RemBelowTwice(i - 1 + len, len);
    JsRem(i - 1 + len, len)
  }

  /** For an index in range, previous undoes next and next undoes previous. */
  lemma NextPrevInverse(i: int, len: int)
    requires 0 <= i < len
    ensures PrevIndex(NextIndex(i, len), len) == i
    ensures NextIndex(PrevIndex(i, len), len) == i
  {
  }

  /** The index after k presses of "next" from index i. */
  function NextTimes(i: int, k: nat, len: int): (r: int)
    requires 0 <= i < len
    ensures 0 <= r < len
  {
    if k == 0 then i else NextIndex(NextTimes(i, k - 1, len), len)
  }

  /** Up to one full round, "next" walks the visible items in order, wrapping once. */
  lemma {:induction false} NextTimesValue(i: int, k: nat, len: int)
    requires 0 <= i < len && k <= len
    ensures NextTimes(i, k, len) == if i + k < len then i + k else i + k - len
  {
    if k > 0 {
      NextTimesValue(i, k - 1, len);
    }
  }

  /** len presses of "next" come back to the image shown first. */
  lemma NextFullRound(i: int, len: int)
    requires 0 <= i < len
    ensures NextTimes(i, len, len) == i
  {
    NextTimesValue(i, len, len);
  }

  /** Every visible item is reached from any other in fewer than len presses of "next". */
  lemma NextReachesAll(i: int, j: int, len: int)
    requires 0 <= i < len && 0 <= j < len
    ensures var k := if i <= j then j - i else j - i + len;
      k < len && NextTimes(i, k, len) == j
  {
    var k := if i <= j then j - i else j - i + len;
    NextTimesValue(i, k, len);
  }

  /**
   * Array.prototype.indexOf: the first position holding x, or -1. Gallery
   * items are compared by identity, which the model gives as their position
   * in the gallery.
   */
  function IndexOf<T(==)>(s: seq<T>, x: T): (r: int)
    ensures -1 <= r < |s|
    ensures r == -1 <==> x !in s
    ensures r >= 0 ==> s[r] == x && x !in s[..r]
  {
    if s == [] then -1
    else if s[0] == x then 0
    else
      var t := IndexOf(s[1..], x);
      if t == -1 then -1 else t + 1
  }

  /** In a list without repeats in increasing order, indexOf finds the one position holding x. */
  lemma IndexOfIncreasing(s: seq<nat>, j: int)
    requires forall a, b :: 0 <= a < b < |s| ==> s[a] < s[b]
    requires 0 <= j < |s|
    ensures IndexOf(s, s[j]) == j
  {
  }

  /** Horizontal distance, in CSS pixels, a touch must travel to count as a swipe. */
  const SwipeThreshold: real := 50.0

  datatype Swipe = ToNext | ToPrevious | Ignored

  /** handleSwipe's decision for a touch that started at startX and ended at endX. */
  function SwipeDecision(startX: real, endX: real): (d: Swipe)
    ensures d == ToNext <==> startX - endX > SwipeThreshold
    ensures d == ToPrevious <==> endX - startX > SwipeThreshold
    ensures d == Ignored <==> -SwipeThreshold <= startX - endX <= SwipeThreshold
  {
    var diff := startX - endX;
    var magnitude := if diff < 0.0 then -diff else diff;
    if magnitude > SwipeThreshold then
      if diff > 0.0 then ToNext else ToPrevious
    else Ignored
  }

  function Mirror(d: Swipe): Swipe {
    match d
    case ToNext => ToPrevious
    case ToPrevious => ToNext
    case Ignored => Ignored
  }

  /** The same gesture in the opposite direction asks for the opposite move. */
  lemma SwipeMirror(startX: real, endX: real)
    ensures SwipeDecision(endX, startX) == Mirror(SwipeDecision(startX, endX))
  {
  }

  /** Only the distance travelled matters, not where on the screen the touch happens. */
  lemma SwipeShift(startX: real, endX: real, offset: real)
    ensures SwipeDecision(startX + offset, endX + offset) == SwipeDecision(startX, endX)
  {
  }

  datatype Command = Close | Previous | Next | NoCommand

  /** The switch on e.key in the keydown listener. */
  function KeyCommand(key: string): (c: Command)
    ensures c != NoCommand <==> key in {"Escape", "ArrowLeft", "ArrowRight"}
  {
    match key
    case "Escape" => Close
    case "ArrowLeft" => Previous
    case "ArrowRight" => Next
    case _ => NoCommand
  }
}
