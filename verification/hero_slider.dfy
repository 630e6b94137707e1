/**
 The featured-course slider (app/components/HeroSlider.tsx) as a state
 machine over the current slide index, for `n` slides.
 */
module HeroSlider {

  /** `prevSlide`: the first slide wraps to the last. */
  function PrevSlide(n: nat, i: int): (r: int)
    ensures n > 0 && 0 <= i < n ==> 0 <= r < n && r == (i - 1) % n
  {
    if i == 0 then n - 1 else i - 1
  }

  /** `nextSlide`: nothing happens without slides; the last slide wraps to the first. */
  function NextSlide(n: nat, i: int): (r: int)
    ensures n == 0 ==> r == i
    ensures n > 0 && 0 <= i < n ==> 0 <= r < n && r == (i + 1) % n
  {
    if n == 0 then i
    else if i == n - 1 then 0 else i + 1
  }

  /** What the user (or the auto-advance timer) does to the slider. */
  datatype Event = Prev | Next | Dot(slide: int)

  /** Dots exist only for the slides there are, and the arrows only when a slide is rendered. */
  predicate Clickable(n: nat, e: Event) {
    n > 0 && (e.Dot? ==> 0 <= e.slide < n)
  }

  function Step(n: nat, i: int, e: Event): (r: int) {
    match e
    case Prev => PrevSlide(n, i)
    case Next => NextSlide(n, i)
    case Dot(k) => k
  }

  /** The index after a sequence of events. */
  function Run(n: nat, i: int, events: seq<Event>): (r: int)
    decreases |events|
  {
    if |events| == 0 then i else Run(n, Step(n, i, events[0]), events[1..])
  }

  /** The index stays a valid slide under any clickable events. */
  lemma {:induction false} RunStaysInRange(n: nat, i: int, events: seq<Event>)
    requires 0 <= i < n
    requires forall k :: 0 <= k < |events| ==> Clickable(n, events[k])
    ensures 0 <= Run(n, i, events) < n
    decreases |events|
  {
    if |events| > 0 {
      RunStaysInRange(n, Step(n, i, events[0]), events[1..]);
    }
  }

  /** `prev` undoes `next` and `next` undoes `prev`. */
  lemma {:induction false} PrevNextInverse(n: nat, i: int)
    requires 0 <= i < n
    ensures PrevSlide(n, NextSlide(n, i)) == i
    ensures NextSlide(n, PrevSlide(n, i)) == i
  {
  }

  /** `k` presses of next. */
  function Advance(n: nat, i: int, k: nat): (r: int) {
    if k == 0 then i else NextSlide(n, Advance(n, i, k - 1))
  }

  /** `k` presses of next move `k` slides forward, modulo `n`. */
  lemma {:induction false} AdvanceIsRotation(n: nat, i: int, k: nat)
    requires 0 <= i < n
    ensures Advance(n, i, k) == (i + k) % n
  {
    if k > 0 {
      AdvanceIsRotation(n, i, k - 1);
      var j := (i + k - 1) % n;
      assert NextSlide(n, j) == (j + 1) % n;
      ModSuccessor(i + k - 1, n);
    }
  }

  lemma {:induction false} ModSuccessor(a: int, n: nat)
    requires n > 0
    ensures (a % n + 1) % n == (a + 1) % n
  {
    var q, r := a / n, a % n;
    assert a == q * n + r;
    if r + 1 < n {
      ModUnique(a + 1, n, q, r + 1);
      ModUnique(r + 1, n, 0, r + 1);
    } else {
      assert a + 1 == (q + 1) * n;
      ModUnique(a + 1, n, q + 1, 0);
      ModUnique(r + 1, n, 1, 0);
    }
  }

  /** The remainder is determined by any quotient-remainder decomposition. */
  lemma {:induction false} ModUnique(x: int, n: nat, q: int, r: int)
    requires n > 0 && 0 <= r < n && x == q * n + r
    ensures x % n == r
  {
    var q', r' := x / n, x % n;
    assert x == q' * n + r';
    var d := q - q';
    assert d * n == r' - r by {
      assert q * n - q' * n == d * n;
    }
    if d >= 1 {
      MulAtLeast(d, n);
    } else if d <= -1 {
      MulAtLeast(-d, n);
    }
  }

  lemma {:induction false} MulAtLeast(d: int, n: nat)
    requires d >= 1
    ensures d * n >= n
  {
    assert d * n == (d - 1) * n + n;
  }

  /** `n` presses of next come back to the starting slide. */
  lemma {:induction false} FullCycle(n: nat, i: int)
    requires 0 <= i < n
    ensures Advance(n, i, n) == i
  {
    AdvanceIsRotation(n, i, n);
    ModUnique(i + n, n, 1, i);
  }

  /** `translateX(-{i * 100}%)`: the slide strip's offset. */
  function SlideOffset(i: int): (r: int) {
    i * 100
  }

  /** The strip is always shifted to the start of a whole slide that exists. */
  lemma {:induction false} OffsetShowsASlide(n: nat, i: int, events: seq<Event>)
    requires 0 <= i < n
    requires forall k :: 0 <= k < |events| ==> Clickable(n, events[k])
    ensures var off := SlideOffset(Run(n, i, events));
      0 <= off <= (n - 1) * 100 && off % 100 == 0
  {
    RunStaysInRange(n, i, events);
  }
}
